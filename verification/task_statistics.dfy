/** `TaskStats`: counts over the full, unfiltered row set at a time `now`. */
module TaskStatistics {

  import opened Ints
  import opened TaskEnums
  import opened TaskEntity

  datatype TaskStats = TaskStats(total: nat, completed: nat, pending: nat, overdue: nat, highPriority: nat)

  /** `TaskStats()`: every count zero. */
  const EMPTY_STATS: TaskStats := TaskStats(0, 0, 0, 0, 0)

  predicate IsDone(t: Task) { t.done }

  predicate IsPending(t: Task) { !t.done }

  /** Not done, has a due date, and the due date has passed. */
  predicate IsOverdue(t: Task, now: Int64) {
    !t.done && t.dueDate.Some? && t.dueDate.value < now
  }

  /** Not done and stored with the `High` value (compared raw). */
  predicate IsPendingHigh(t: Task) {
    t.priority == High.Value() && !t.done
  }

  /** `count { p(it) }`. */
  function Count(s: seq<Task>, p: Task -> bool): (n: nat)
    ensures n <= |s|
  {
    if |s| == 0 then 0 else (if p(s[0]) then 1 else 0) + Count(s[1..], p)
  }

  /** The empty sequence counts zero; a single row counts one exactly when
      it satisfies `p`. */
  lemma CountSingleton(x: Task, p: Task -> bool)
    ensures Count([], p) == 0
    ensures Count([x], p) == if p(x) then 1 else 0
  {
    assert [x][1..] == [];
  }

  lemma {:induction false} CountAppend(a: seq<Task>, b: seq<Task>, p: Task -> bool)
    ensures Count(a + b, p) == Count(a, p) + Count(b, p)
  {
    if |a| > 0 {
      CountAppend(a[1..], b, p);
      assert (a + b)[1..] == a[1..] + b;
    } else {
      assert a + b == b;
    }
  }

  /** Rows satisfying `p` and rows not satisfying it add up to all rows. */
  lemma {:induction false} CountComplement(s: seq<Task>, p: Task -> bool, q: Task -> bool)
    requires forall t :: q(t) == !p(t)
    ensures Count(s, p) + Count(s, q) == |s|
  {
    if |s| > 0 {
      CountComplement(s[1..], p, q);
    }
  }

  /** A weaker predicate counts at least as many rows. */
  lemma {:induction false} CountMonotone(s: seq<Task>, p: Task -> bool, q: Task -> bool)
    requires forall t :: p(t) ==> q(t)
    ensures Count(s, p) <= Count(s, q)
  {
    if |s| > 0 {
      CountMonotone(s[1..], p, q);
    }
  }

  /** A count depends on the multiset of rows, not on their order. */
  lemma {:induction false} CountPermutation(a: seq<Task>, b: seq<Task>, p: Task -> bool)
    requires multiset(a) == multiset(b)
    ensures Count(a, p) == Count(b, p)
    decreases |a|
  {
    if |a| == 0 {
      assert |b| == |multiset(b)| == 0;
    } else {
      var x := a[0];
      assert x in multiset(b);
      var i :| 0 <= i < |b| && b[i] == x;
      var rest := b[..i] + b[i + 1..];
      assert b == b[..i] + [x] + b[i + 1..];
      assert a == [x] + a[1..];
      assert multiset(b) == multiset(b[..i]) + multiset{x} + multiset(b[i + 1..]);
      assert multiset(a) == multiset{x} + multiset(a[1..]);
      assert multiset(rest) == multiset(b[..i]) + multiset(b[i + 1..]);
      assert multiset(a[1..]) == multiset(a) - multiset{x};
      assert multiset(rest) == multiset(b) - multiset{x};
      CountPermutation(a[1..], rest, p);
      CountAppend(b[..i] + [x], b[i + 1..], p);
      CountAppend(b[..i], [x], p);
      CountAppend(b[..i], b[i + 1..], p);
    }
  }

  /** The statistics of `rows` at time `now`. */
  function ComputeStats(rows: seq<Task>, now: Int64): (st: TaskStats)
    ensures st.total == |rows| == st.completed + st.pending
    ensures st.overdue <= st.pending && st.highPriority <= st.pending
    ensures st.completed == Count(rows, IsDone) && st.pending == Count(rows, IsPending)
    ensures st.overdue == Count(rows, t => IsOverdue(t, now))
    ensures st.highPriority == Count(rows, IsPendingHigh)
  {
    var st := TaskStats(
      |rows|,
      Count(rows, IsDone),
      Count(rows, IsPending),
      Count(rows, t => IsOverdue(t, now)),
      Count(rows, IsPendingHigh));
    CountComplement(rows, IsDone, IsPending);
    CountMonotone(rows, t => IsOverdue(t, now), IsPending);
    CountMonotone(rows, IsPendingHigh, IsPending);
    st
  }

  /** No rows give `TaskStats()`. */
  lemma StatsEmpty(now: Int64)
    ensures ComputeStats([], now) == EMPTY_STATS
  {
  }

  /** One more row adds one to the total and one to each count whose
      condition it meets: done; not done; not done with a due date before
      `now`; not done with the stored priority 2. */
  lemma StatsAppendRow(rows: seq<Task>, x: Task, now: Int64)
    ensures ComputeStats(rows + [x], now).total == ComputeStats(rows, now).total + 1
    ensures ComputeStats(rows + [x], now).completed
         == ComputeStats(rows, now).completed + (if x.done then 1 else 0)
    ensures ComputeStats(rows + [x], now).pending
         == ComputeStats(rows, now).pending + (if x.done then 0 else 1)
    ensures ComputeStats(rows + [x], now).overdue
         == ComputeStats(rows, now).overdue
            + (if !x.done && x.dueDate.Some? && x.dueDate.value < now then 1 else 0)
    ensures ComputeStats(rows + [x], now).highPriority
         == ComputeStats(rows, now).highPriority + (if x.priority == 2 && !x.done then 1 else 0)
  {
    CountAppend(rows, [x], IsDone);
    CountAppend(rows, [x], IsPending);
    CountAppend(rows, [x], t => IsOverdue(t, now));
    CountAppend(rows, [x], IsPendingHigh);
    CountSingleton(x, IsDone);
    CountSingleton(x, IsPending);
    CountSingleton(x, t => IsOverdue(t, now));
    CountSingleton(x, IsPendingHigh);
  }

  /** A pending row stored with a priority other than 2 (say 7, which the
      sort reads as `Medium`) is pending but not high priority. */
  lemma OddPriorityNotHigh(t: Task, now: Int64)
    requires !t.done && t.priority != High.Value()
    ensures ComputeStats([t], now).pending == 1
    ensures ComputeStats([t], now).highPriority == 0
  {
    CountSingleton(t, IsPending);
    CountSingleton(t, IsPendingHigh);
  }

  /** The statistics do not depend on the order the rows arrive in. */
  lemma StatsOrderIndependent(a: seq<Task>, b: seq<Task>, now: Int64)
    requires multiset(a) == multiset(b)
    ensures ComputeStats(a, now) == ComputeStats(b, now)
  {
    CountPermutation(a, b, IsDone);
    CountPermutation(a, b, IsPending);
    CountPermutation(a, b, t => IsOverdue(t, now));
    CountPermutation(a, b, IsPendingHigh);
    assert |a| == |multiset(a)| == |multiset(b)| == |b|;
  }
}
