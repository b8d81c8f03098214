/**
 The repetition scheduler of the Leitner box: the library's own recurrence
 `Fib`, the per-slot schedule rows it yields on a ring of `count` lesson
 slots, and the empty starting decks.
 */
module Utils {

  /** The library's recurrence: Fib(0) = 0 and Fib(n) = Fib(n - 1) + n + 1.
      It is not the classic Fibonacci sequence: 0, 2, 5, 9, 14, ... */
  function Fib(n: nat): nat
  {
    if n == 0 then 0 else Fib(n - 1) + n + 1
  }

  /** Closed form of the recurrence: Fib(n) = n * (n + 3) / 2. */
  lemma {:induction false} FibClosedForm(n: nat)
    ensures 2 * Fib(n) == n * (n + 3)
  {
    if n > 0 {
      FibClosedForm(n - 1);
      assert (n - 1) * (n + 2) == n * n + n - 2;
      assert n * (n + 3) == n * n + 3 * n;
    }
  }

  /** The recurrence is strictly increasing. */
  lemma {:induction false} FibStrictlyIncreasing(m: nat, n: nat)
    requires m < n
    ensures Fib(m) < Fib(n)
  {
    if m < n - 1 {
      FibStrictlyIncreasing(m, n - 1);
    }
  }

  /** The values the test-suite relies on: the default of three repetitions
      gives a ring of Fib(3) + 1 = 10 lesson slots. */
  lemma FibSmallValues()
    ensures Fib(1) == 2 && Fib(2) == 5 && Fib(3) == 9
  {
  }

  /** The due lessons of ring slot `i`, exactly as the scheduler's inner
      loop writes them: entry j, for j in 0 .. repetitions, is the slot
      Fib(j) steps after `i` on a ring of `count` slots. */
  function RepeatRow(count: nat, i: nat, repetitions: nat): (row: seq<nat>)
    requires 0 < count
    ensures |row| == repetitions + 1
    ensures forall j :: 0 <= j < |row| ==> row[j] < count
  {
    seq(repetitions + 1, (j: int) requires 0 <= j => (i + Fib(j)) % count)
  }

  /** One schedule row per ring slot, in slot order (the value
      `buildRepeatLessons` returns, as a function). */
  function RepeatLessons(count: nat, repetitions: nat): (rows: seq<seq<nat>>)
    ensures |rows| == count
    ensures forall i :: 0 <= i < count ==> rows[i] == RepeatRow(count, i, repetitions)
  {
    if count == 0 then []
    else seq(count, (i: int) requires 0 <= i < count => RepeatRow(count, i, repetitions))
  }

  /** The scheduler's inner loop: the due lessons of slot `i`, one per j
      in 0 .. repetitions, the first being the slot itself. */
  method BuildRow(count: nat, i: nat, repetitions: nat) returns (a: seq<nat>)
    requires i < count
    ensures |a| == repetitions + 1 && a[0] == i
    ensures forall j :: 0 <= j <= repetitions ==> a[j] == (i + Fib(j)) % count && a[j] < count
    ensures a == RepeatRow(count, i, repetitions)
  {
    a := [];
    var j := 0;
    while j < repetitions + 1
      invariant 0 <= j <= repetitions + 1
      invariant a == RepeatRow(count, i, repetitions)[..j]
    {
      ghost var row := RepeatRow(count, i, repetitions);
      assert row[..j + 1] == row[..j] + [row[j]];
      a := a + [(i + Fib(j)) % count];
      j := j + 1;
    }
    assert a == RepeatRow(count, i, repetitions)[..repetitions + 1];
    ModWrap(i, count);
  }

  /** The scheduler's outer loop: one row per ring slot, in slot order,
      which is the schedule `RepeatLessons` describes. */
  method BuildRepeatLessons(count: nat, repetitions: nat) returns (labels: seq<seq<nat>>)
    ensures |labels| == count
    ensures forall i :: 0 <= i < count ==> labels[i] == RepeatRow(count, i, repetitions)
    ensures labels == RepeatLessons(count, repetitions)
  {
    labels := [];
    var i := 0;
    while i < count
      invariant 0 <= i <= count
      invariant |labels| == i
      invariant forall k :: 0 <= k < i ==> labels[k] == RepeatRow(count, k, repetitions)
    {
      var a := BuildRow(count, i, repetitions);
      labels := labels + [a];
      i := i + 1;
    }
  }

  /** The schedule row the test-suite expects: the entries for
      j in 1 .. repetitions only, without the leading slot itself. */
  function TestedRow(count: nat, i: nat, repetitions: nat): (row: seq<nat>)
    requires 0 < count
    ensures |row| == repetitions
    ensures forall k :: 0 <= k < |row| ==> row[k] < count
  {
    seq(repetitions, (k: int) requires 0 <= k => (i + Fib(k + 1)) % count)
  }

  /** The row as written is the slot itself followed by the tested row:
      dropping the leading entry yields exactly the tested schedule. */
  lemma DropLeadingEntry(count: nat, i: nat, repetitions: nat)
    requires i < count
    ensures RepeatRow(count, i, repetitions)[0] == i
    ensures RepeatRow(count, i, repetitions) == [i] + TestedRow(count, i, repetitions)
  {
    var row := RepeatRow(count, i, repetitions);
    var tested := TestedRow(count, i, repetitions);
    ModWrap(i, count);
    assert row[0] == i % count == i;
    forall k | 0 <= k < |row|
      ensures row[k] == ([i] + tested)[k]
    {
      if k > 0 {
        assert row[k] == (i + Fib(k)) % count;
        assert tested[k - 1] == (i + Fib(k)) % count;
      }
    }
  }

  /** (x + c) % c == x for a position x already on the ring of size c. */
  lemma ModWrap(x: int, c: int)
    requires 0 <= x < c
    ensures (x + c) % c == x
    ensures x % c == x
  {
  }

  /** Two different offsets smaller than the ring size land on different
      slots from any start. */
  lemma ModDistinct(i: nat, a: nat, b: nat, c: nat)
    requires a < b < c
    ensures (i + a) % c != (i + b) % c
  {
    if (i + a) % c == (i + b) % c {
      var d := (i + b) / c - (i + a) / c;
      assert b - a == d * c;
      NoMultipleStrictlyBetween(d, c);
    }
  }

  /** No multiple of a positive c lies strictly between 0 and c. */
  lemma NoMultipleStrictlyBetween(d: int, c: int)
    requires 0 < c
    ensures !(0 < d * c < c)
  {
    if d <= 0 {
      assert d * c <= 0;
    } else {
      assert d * c >= c;
    }
  }

  /** With the library's ring size count = Fib(repetitions) + 1, the last
      scheduled review of slot i is the slot just before i on the ring. */
  lemma LastEntryIsPredecessor(repetitions: nat, i: nat)
    requires i < Fib(repetitions) + 1
    ensures var count := Fib(repetitions) + 1;
            RepeatRow(count, i, repetitions)[repetitions] == (i + count - 1) % count
    ensures RepeatRow(Fib(repetitions) + 1, i, repetitions)[repetitions]
            == if i == 0 then Fib(repetitions) else i - 1
  {
    var count := Fib(repetitions) + 1;
    if i == 0 {
      ModWrap(Fib(repetitions), count);
    } else {
      ModWrap(i - 1, count);
      assert i + Fib(repetitions) == (i - 1) + count;
    }
  }

  /** With count = Fib(repetitions) + 1, no slot appears twice in one row;
      in particular only the leading entry of slot i is i itself. */
  lemma RowEntriesDistinct(repetitions: nat, i: nat, j1: nat, j2: nat)
    requires i < Fib(repetitions) + 1
    requires j1 < j2 <= repetitions
    ensures var row := RepeatRow(Fib(repetitions) + 1, i, repetitions);
            row[j1] != row[j2]
  {
    FibStrictlyIncreasing(j1, j2);
    if j2 < repetitions {
      FibStrictlyIncreasing(j2, repetitions);
    }
    ModDistinct(i, Fib(j1), Fib(j2), Fib(repetitions) + 1);
  }

  /** The schedules the test-suite checks for the first and last slot, and
      the leading entry the code as written puts in front of them. */
  lemma TestedScheduleExamples()
    ensures TestedRow(10, 0, 3) == [2, 5, 9] && TestedRow(10, 9, 3) == [1, 4, 8]
    ensures TestedRow(6, 0, 2) == [2, 5] && TestedRow(6, 5, 2) == [1, 4]
    ensures RepeatRow(10, 0, 3) == [0, 2, 5, 9] && RepeatRow(10, 9, 3) == [9, 1, 4, 8]
    ensures RepeatRow(6, 0, 2) == [0, 2, 5] && RepeatRow(6, 5, 2) == [5, 1, 4]
  {
    FibSmallValues();
    DropLeadingEntry(10, 0, 3);
    DropLeadingEntry(10, 9, 3);
    DropLeadingEntry(6, 0, 2);
    DropLeadingEntry(6, 5, 2);
  }

  /** `count + 2` empty decks: the unknown deck, one per lesson slot and
      the learned deck. */
  function BuildEmptyDecks<T>(count: nat): (decks: seq<seq<T>>)
    ensures |decks| == count + 2
    ensures forall k :: 0 <= k < |decks| ==> decks[k] == []
  {
    seq(count + 2, _ => [])
  }
}
