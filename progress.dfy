/**
 * The completion bar: the share of completed todos as a whole percentage,
 * the confetti trigger and the emoji animation class chosen from it.
 */
module Progress {
  import opened TodoStore

  /** `todos.filter(todo => todo.completed).length`. */
  function CompletedCount(todos: seq<Todo>): (c: nat)
    ensures c <= |todos|
  {
    if todos == [] then 0 else (if todos[0].completed then 1 else 0) + CompletedCount(todos[1..])
  }

  /**
   * `Math.round(completed / total * 100)` computed exactly: the nearest whole
   * percentage, halves rounded up.
   */
  function RoundedPercent(completed: nat, total: nat): (p: nat)
    requires 0 < total && completed <= total
    ensures 2 * total * p <= 200 * completed + total < 2 * total * (p + 1)
    ensures p <= 100
  {
    var p := (200 * completed + total) / (2 * total);
    assert 2 * total * p < 2 * total * 101;
    LessByFactor(2 * total, p, 101);
    p
  }

  lemma {:induction false} MulMonotone(a: nat, x: int, y: int)
    requires x <= y
    ensures a * x <= a * y
  {
    if a > 0 {
      MulMonotone(a - 1, x, y);
      assert a * x == (a - 1) * x + x && a * y == (a - 1) * y + y;
    }
  }

  lemma LessByFactor(a: nat, x: int, y: int)
    requires a * x < a * y
    ensures x < y
  {
    if y <= x {
      MulMonotone(a, y, x);
    }
  }

  /** The rounding bounds determine the percentage. */
  lemma RoundedPercentIs(completed: nat, total: nat, p: nat)
    requires 0 < total && completed <= total
    requires 2 * total * p <= 200 * completed + total < 2 * total * (p + 1)
    ensures RoundedPercent(completed, total) == p
  {
    var q := RoundedPercent(completed, total);
    LessByFactor(2 * total, q, p + 1);
    LessByFactor(2 * total, p, q + 1);
  }

  /** `calculateProgress`. */
  function Progress(todos: seq<Todo>): (p: nat)
    ensures p <= 100
    ensures |todos| == 0 ==> p == 0
  {
    if |todos| == 0 then 0 else RoundedPercent(CompletedCount(todos), |todos|)
  }

  lemma {:induction false} CompletedCountAll(todos: seq<Todo>)
    requires forall i :: 0 <= i < |todos| ==> todos[i].completed
    ensures CompletedCount(todos) == |todos|
  {
    if todos != [] {
      CompletedCountAll(todos[1..]);
    }
  }

  lemma {:induction false} CompletedCountNone(todos: seq<Todo>)
    requires forall i :: 0 <= i < |todos| ==> !todos[i].completed
    ensures CompletedCount(todos) == 0
  {
    if todos != [] {
      CompletedCountNone(todos[1..]);
    }
  }

  /** A non-empty list with every todo completed is at 100%. */
  lemma AllCompletedIsFull(todos: seq<Todo>)
    requires |todos| > 0
    requires forall i :: 0 <= i < |todos| ==> todos[i].completed
    ensures Progress(todos) == 100
  {
    CompletedCountAll(todos);
    RoundedPercentIs(|todos|, |todos|, 100);
  }

  /** A list with no todo completed is at 0%. */
  lemma NoneCompletedIsEmpty(todos: seq<Todo>)
    requires forall i :: 0 <= i < |todos| ==> !todos[i].completed
    ensures Progress(todos) == 0
  {
    CompletedCountNone(todos);
    if |todos| > 0 {
      RoundedPercentIs(0, |todos|, 0);
    }
  }

  lemma RoundedPercentMonotone(c1: nat, c2: nat, total: nat)
    requires 0 < total && c1 <= c2 <= total
    ensures RoundedPercent(c1, total) <= RoundedPercent(c2, total)
  {
    var p1, p2 := RoundedPercent(c1, total), RoundedPercent(c2, total);
    LessByFactor(2 * total, p1, p2 + 1);
  }

  /** For lists of one length, more completed todos never lower the percentage. */
  lemma ProgressMonotone(a: seq<Todo>, b: seq<Todo>)
    requires |a| == |b| && CompletedCount(a) <= CompletedCount(b)
    ensures Progress(a) <= Progress(b)
  {
    if |a| > 0 {
      RoundedPercentMonotone(CompletedCount(a), CompletedCount(b), |a|);
    }
  }

  /** The trigger as written: `newProgress === 100 && todos.length > 0`. */
  predicate ConfettiAsWritten(todos: seq<Todo>)
  {
    Progress(todos) == 100 && |todos| > 0
  }

  /** From 200 todos on, one open todo still rounds to 100% and fires the confetti. */
  lemma ConfettiWithOneTodoOpen(todos: seq<Todo>)
    requires |todos| >= 200 && CompletedCount(todos) == |todos| - 1
    ensures ConfettiAsWritten(todos)
    ensures exists i :: 0 <= i < |todos| && !todos[i].completed
  {
    var n := |todos|;
    RoundedPercentIs(n - 1, n, 100);
    if forall i :: 0 <= i < |todos| ==> todos[i].completed {
      CompletedCountAll(todos);
    }
  }

  /** The intended trigger: the list is non-empty and every todo is completed. */
  predicate Confetti(todos: seq<Todo>)
  {
    |todos| > 0 && CompletedCount(todos) == |todos|
  }

  /** The intended trigger fires exactly when all todos are done, and only at 100%. */
  lemma ConfettiWhenAllDone(todos: seq<Todo>)
    ensures Confetti(todos) <==> |todos| > 0 && forall i :: 0 <= i < |todos| ==> todos[i].completed
    ensures Confetti(todos) ==> ConfettiAsWritten(todos)
  {
    if |todos| > 0 && forall i :: 0 <= i < |todos| ==> todos[i].completed {
      CompletedCountAll(todos);
    }
    if Confetti(todos) {
      CompletedAllMeansEvery(todos);
      RoundedPercentIs(|todos|, |todos|, 100);
    }
  }

  lemma {:induction false} CompletedAllMeansEvery(todos: seq<Todo>)
    requires CompletedCount(todos) == |todos|
    ensures forall i :: 0 <= i < |todos| ==> todos[i].completed
  {
    if todos != [] {
      CompletedAllMeansEvery(todos[1..]);
      forall i | 0 < i < |todos| ensures todos[i].completed {
        assert todos[i] == todos[1..][i - 1];
      }
    }
  }

  /** `getEmojiClass`. */
  function EmojiClass(progress: int): (c: string)
    ensures c == "emoji-glow" <==> progress == 100
    ensures c == "emoji-pulse" <==> progress > 0 && progress != 100
    ensures c == "" <==> progress <= 0
  {
    if progress == 100 then "emoji-glow"
    else if progress > 0 then "emoji-pulse"
    else ""
  }

  /** For a computed percentage: glow at 100, pulse from 1 to 99, nothing at 0. */
  lemma EmojiForProgress(todos: seq<Todo>)
    ensures var p := Progress(todos);
      && (EmojiClass(p) == "emoji-glow" <==> p == 100)
      && (EmojiClass(p) == "emoji-pulse" <==> 1 <= p <= 99)
      && (EmojiClass(p) == "" <==> p == 0)
  {
  }
}
