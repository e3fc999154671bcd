/** The JSON response a route sends: a status code and a body. */
module Http {

  datatype Body<T> =
    | Record(record: T)         // a single row, `res.json(row)`
    | Records(records: seq<T>)  // a list of rows, `res.json(rows)`
    | Message(message: string)  // `{ message: ... }`
    | Error(error: string)      // `{ error: ... }`

  datatype Reply<T> = Reply(status: nat, body: Body<T>)
}
