/** The visible task list: the rows that pass the search, priority and
    completion filters, in a stable three-key order. */
module TaskQuery {

  import opened Wrappers
  import opened Ints
  import opened TaskEnums
  import opened TaskEntity
  import opened Text

  // ---------------------------------------------------------------------
  // Filtering
  // ---------------------------------------------------------------------

  /** A row is visible when its title or description contains the query up
      to case, the priority filter is absent or equals the RAW stored
      priority, and completed rows are shown or the row is not done. */
  predicate Matches(t: Task, query: string, filter: Option<Priority>, showCompleted: bool): (b: bool)
    ensures query == "" && filter.None? && showCompleted ==> b
    ensures b ==> (showCompleted || !t.done)
    ensures filter.Some? && t.priority !in {0, 1, 2} ==> !b
  {
    ContainsEmpty(t.title);
    && (ContainsIgnoreCase(t.title, query) || ContainsIgnoreCase(t.description, query))
    && (filter.None? || t.priority == filter.value.Value())
    && (showCompleted || !t.done)
  }

  /** `tasks.filter { ... }`: keeps the matching rows in input order
      (`FilterCounts`, `FilterSingle` and `FilterAppend` state what it
      keeps). */
  function FilterTasks(rows: seq<Task>, query: string, filter: Option<Priority>, showCompleted: bool): (r: seq<Task>)
    ensures |r| <= |rows|
  {
    if |rows| == 0 then []
    else
      var rest := FilterTasks(rows[1..], query, filter, showCompleted);
      if Matches(rows[0], query, filter, showCompleted) then [rows[0]] + rest else rest
  }

  /** Each row occurs in the filtered sequence exactly as often as in the
      input when it matches, and not at all otherwise. */
  lemma {:induction false} FilterCounts(rows: seq<Task>, query: string, filter: Option<Priority>, showCompleted: bool)
    ensures var r := FilterTasks(rows, query, filter, showCompleted);
      forall t :: multiset(r)[t] == if Matches(t, query, filter, showCompleted) then multiset(rows)[t] else 0
  {
    if |rows| > 0 {
      FilterCounts(rows[1..], query, filter, showCompleted);
      assert rows == [rows[0]] + rows[1..];
    }
  }

  /** A single row is kept exactly when it matches. */
  lemma FilterSingle(x: Task, query: string, filter: Option<Priority>, showCompleted: bool)
    ensures FilterTasks([x], query, filter, showCompleted) == if Matches(x, query, filter, showCompleted) then [x] else []
  {
    assert [x][1..] == [];
  }

  /** Filtering distributes over concatenation; with `FilterSingle` this
      fixes the result, input order included. */
  lemma {:induction false} FilterAppend(a: seq<Task>, b: seq<Task>, query: string, filter: Option<Priority>, showCompleted: bool)
    ensures FilterTasks(a + b, query, filter, showCompleted)
         == FilterTasks(a, query, filter, showCompleted) + FilterTasks(b, query, filter, showCompleted)
  {
    if |a| == 0 {
      assert a + b == b;
    } else {
      var ab := a + b;
      assert ab[0] == a[0];
      assert ab[1..] == a[1..] + b;
      FilterAppend(a[1..], b, query, filter, showCompleted);
      var fa := FilterTasks(a[1..], query, filter, showCompleted);
      var fb := FilterTasks(b, query, filter, showCompleted);
      if Matches(a[0], query, filter, showCompleted) {
        assert [a[0]] + (fa + fb) == ([a[0]] + fa) + fb;
      }
    }
  }

  /** Filtering with the same settings twice is the same as filtering once. */
  lemma {:induction false} FilterIdempotent(rows: seq<Task>, query: string, filter: Option<Priority>, showCompleted: bool)
    ensures FilterTasks(FilterTasks(rows, query, filter, showCompleted), query, filter, showCompleted)
         == FilterTasks(rows, query, filter, showCompleted)
  {
    if |rows| > 0 {
      FilterIdempotent(rows[1..], query, filter, showCompleted);
      var rest := FilterTasks(rows[1..], query, filter, showCompleted);
      if Matches(rows[0], query, filter, showCompleted) {
        assert ([rows[0]] + rest)[1..] == rest;
      }
    }
  }

  // ---------------------------------------------------------------------
  // Sorting
  // ---------------------------------------------------------------------

  /** The three sort keys of a row: its completion, its priority normalised
      through `FromValue`, and its due date with "none" read as
      `Long.MAX_VALUE`. */
  datatype SortKey = SortKey(done: bool, rank: int, due: int)

  function KeyOf(t: Task): (k: SortKey)
    ensures k.done == t.done && 0 <= k.rank <= 2
    ensures t.priority in {0, 1, 2} ==> k.rank == t.priority
    ensures t.priority !in {0, 1, 2} ==> k.rank == Medium.Value()
    ensures t.dueDate.None? ==> k.due == LONG_MAX
    ensures t.dueDate.Some? ==> k.due == t.dueDate.value <= LONG_MAX
  {
    NormaliseIdempotent(t.priority);
    FromValueTotal(t.priority);
    SortKey(t.done, FromValue(t.priority).Value(), t.dueDate.GetOr(LONG_MAX))
  }

  /** `a` sorts strictly before `b`: incomplete before complete, then
      higher rank first, then earlier due date first. */
  predicate Precedes(a: SortKey, b: SortKey): (p: bool)
    ensures a.done != b.done ==> (p <==> !a.done)
    ensures a.done == b.done && a.rank != b.rank ==> (p <==> a.rank > b.rank)
    ensures a.done == b.done && a.rank == b.rank ==> (p <==> a.due < b.due)
  {
    || (!a.done && b.done)
    || (a.done == b.done && a.rank > b.rank)
    || (a.done == b.done && a.rank == b.rank && a.due < b.due)
  }

  /** `Precedes` is a strict total order on keys: irreflexive, transitive,
      and any two distinct keys are comparable. */
  lemma PrecedesStrictTotalOrder(a: SortKey, b: SortKey, c: SortKey)
    ensures !Precedes(a, a)
    ensures Precedes(a, b) && Precedes(b, c) ==> Precedes(a, c)
    ensures a == b || Precedes(a, b) || Precedes(b, a)
    ensures Precedes(a, b) ==> !Precedes(b, a)
  {
  }

  ghost predicate Sorted(s: seq<Task>) {
    forall i, j :: 0 <= i < j < |s| ==> !Precedes(KeyOf(s[j]), KeyOf(s[i]))
  }

  /** The rows of `s` whose sort key is `k`, in their order in `s`. */
  function WithKey(s: seq<Task>, k: SortKey): seq<Task> {
    if |s| == 0 then []
    else (if KeyOf(s[0]) == k then [s[0]] else []) + WithKey(s[1..], k)
  }

  /** Inserts `x` into a sorted sequence before the first row that does not
      strictly precede it, so that `x` lands before rows with its own key. */
  function InsertInOrder(x: Task, s: seq<Task>): seq<Task> {
    if |s| == 0 || !Precedes(KeyOf(s[0]), KeyOf(x)) then [x] + s
    else [s[0]] + InsertInOrder(x, s[1..])
  }

  /** `sortedWith(...)`: a stable sort on `KeyOf` (insertion sort). Its
      result is a sorted permutation of its input; `SortStable` gives the
      order of ties. */
  function SortTasks(s: seq<Task>): (r: seq<Task>)
    ensures multiset(r) == multiset(s)
    ensures Sorted(r)
  {
    if |s| == 0 then []
    else
      var rest := SortTasks(s[1..]);
      InsertPermutes(s[0], rest);
      InsertSorted(s[0], rest);
      assert s == [s[0]] + s[1..];
      InsertInOrder(s[0], rest)
  }

  lemma {:induction false} InsertPermutes(x: Task, s: seq<Task>)
    ensures multiset(InsertInOrder(x, s)) == multiset(s) + multiset{x}
  {
    if |s| > 0 && Precedes(KeyOf(s[0]), KeyOf(x)) {
      InsertPermutes(x, s[1..]);
      assert s == [s[0]] + s[1..];
    }
  }

  lemma {:induction false} InsertSorted(x: Task, s: seq<Task>)
    requires Sorted(s)
    ensures Sorted(InsertInOrder(x, s))
  {
    if |s| > 0 && Precedes(KeyOf(s[0]), KeyOf(x)) {
      var tail := InsertInOrder(x, s[1..]);
      InsertSorted(x, s[1..]);
      InsertPermutes(x, s[1..]);
      assert s == [s[0]] + s[1..];
      forall j | 0 <= j < |tail|
        ensures !Precedes(KeyOf(tail[j]), KeyOf(s[0]))
      {
        assert tail[j] in multiset(tail);
        if tail[j] != x {
          assert tail[j] in multiset(s[1..]);
          var m :| 0 <= m < |s[1..]| && s[1..][m] == tail[j];
          assert s[m + 1] == tail[j];
        }
      }
    }
  }

  lemma {:induction false} InsertStable(x: Task, s: seq<Task>, k: SortKey)
    requires Sorted(s)
    ensures WithKey(InsertInOrder(x, s), k) == (if KeyOf(x) == k then [x] else []) + WithKey(s, k)
  {
    if |s| == 0 || !Precedes(KeyOf(s[0]), KeyOf(x)) {
      assert ([x] + s)[1..] == s;
    } else {
      InsertStable(x, s[1..], k);
      assert ([s[0]] + InsertInOrder(x, s[1..]))[1..] == InsertInOrder(x, s[1..]);
      PrecedesStrictTotalOrder(KeyOf(s[0]), KeyOf(x), KeyOf(x));
    }
  }

  /** Sorting is stable: the rows sharing any one key keep their input
      order. */
  lemma {:induction false} SortStable(s: seq<Task>, k: SortKey)
    ensures WithKey(SortTasks(s), k) == WithKey(s, k)
  {
    if |s| > 0 {
      SortStable(s[1..], k);
      InsertStable(s[0], SortTasks(s[1..]), k);
    }
  }

  /** Sorting an already sorted sequence changes nothing. */
  lemma {:induction false} SortOfSorted(s: seq<Task>)
    requires Sorted(s)
    ensures SortTasks(s) == s
  {
    if |s| > 0 {
      SortOfSorted(s[1..]);
      assert s == [s[0]] + s[1..];
    }
  }

  /** The rows collected by `WithKey` are rows of `s` carrying key `k`. */
  lemma {:induction false} WithKeyMembers(s: seq<Task>, k: SortKey, x: Task)
    requires x in WithKey(s, k)
    ensures x in s && KeyOf(x) == k
  {
    if |s| > 0 && x in WithKey(s[1..], k) {
      WithKeyMembers(s[1..], k, x);
    }
  }

  /** A sorted sequence is determined by the order of each key's rows:
      two sorted sequences that list every key's rows alike are equal. */
  lemma {:induction false} SortedDeterminedByKeys(r: seq<Task>, u: seq<Task>)
    requires Sorted(r) && Sorted(u)
    requires forall k :: WithKey(r, k) == WithKey(u, k)
    ensures r == u
    decreases |r| + |u|
  {
    if |r| == 0 || |u| == 0 {
      if |r| > 0 {
        assert r[0] in WithKey(r, KeyOf(r[0]));
        assert false;
      } else if |u| > 0 {
        assert u[0] in WithKey(u, KeyOf(u[0]));
        assert false;
      }
    } else {
      var a, b := r[0], u[0];
      // The first rows share a key: a row of `u` with `a`'s key cannot
      // precede `u[0]`, and symmetrically.
      assert a in WithKey(u, KeyOf(a)) by { assert a in WithKey(r, KeyOf(a)); }
      WithKeyMembers(u, KeyOf(a), a);
      assert b in WithKey(r, KeyOf(b)) by { assert b in WithKey(u, KeyOf(b)); }
      WithKeyMembers(r, KeyOf(b), b);
      PrecedesStrictTotalOrder(KeyOf(a), KeyOf(b), KeyOf(b));
      assert KeyOf(a) == KeyOf(b);
      assert WithKey(r, KeyOf(a))[0] == a && WithKey(u, KeyOf(a))[0] == b;
      forall k
        ensures WithKey(r[1..], k) == WithKey(u[1..], k)
      {
        var head := if KeyOf(a) == k then [a] else [];
        assert WithKey(r, k) == head + WithKey(r[1..], k);
        assert WithKey(u, k) == head + WithKey(u[1..], k);
        assert WithKey(r[1..], k) == WithKey(r, k)[|head|..];
        assert WithKey(u[1..], k) == WithKey(u, k)[|head|..];
      }
      SortedDeterminedByKeys(r[1..], u[1..]);
      assert r == [a] + r[1..] && u == [a] + u[1..];
    }
  }

  /** `SortTasks` is the stable sort: any sorted arrangement that keeps
      each key's rows in their order in `s` is `SortTasks(s)`. */
  lemma SortIsTheStableSort(s: seq<Task>, r: seq<Task>)
    requires Sorted(r)
    requires forall k :: WithKey(r, k) == WithKey(s, k)
    ensures r == SortTasks(s)
  {
    forall k
      ensures WithKey(r, k) == WithKey(SortTasks(s), k)
    {
      SortStable(s, k);
    }
    SortedDeterminedByKeys(r, SortTasks(s));
  }

  // ---------------------------------------------------------------------
  // The visible list
  // ---------------------------------------------------------------------

  /** The body of `taskList`: filter, then sort. The result is a sorted
      permutation of exactly the matching rows. */
  function VisibleList(rows: seq<Task>, query: string, filter: Option<Priority>, showCompleted: bool): (r: seq<Task>)
    ensures Sorted(r)
    ensures forall t :: multiset(r)[t] == if Matches(t, query, filter, showCompleted) then multiset(rows)[t] else 0
  {
    FilterCounts(rows, query, filter, showCompleted);
    SortTasks(FilterTasks(rows, query, filter, showCompleted))
  }

  lemma {:induction false} WithKeyAppend(a: seq<Task>, b: seq<Task>, k: SortKey)
    ensures WithKey(a + b, k) == WithKey(a, k) + WithKey(b, k)
  {
    if |a| > 0 {
      WithKeyAppend(a[1..], b, k);
      assert (a + b)[0] == a[0] && (a + b)[1..] == a[1..] + b;
    } else {
      assert a + b == b;
    }
  }

  /** Picking one key's rows commutes with filtering: the filter keeps the
      rows of every key in their stored order. */
  lemma {:induction false} FilterWithKey(rows: seq<Task>, query: string, filter: Option<Priority>, showCompleted: bool, k: SortKey)
    ensures WithKey(FilterTasks(rows, query, filter, showCompleted), k)
         == FilterTasks(WithKey(rows, k), query, filter, showCompleted)
  {
    if |rows| > 0 {
      var x := rows[0];
      FilterWithKey(rows[1..], query, filter, showCompleted, k);
      var head := if Matches(x, query, filter, showCompleted) then [x] else [];
      var rest := FilterTasks(rows[1..], query, filter, showCompleted);
      assert FilterTasks(rows, query, filter, showCompleted) == head + rest;
      WithKeyAppend(head, rest, k);
      var keyed := if KeyOf(x) == k then [x] else [];
      FilterAppend(keyed, WithKey(rows[1..], k), query, filter, showCompleted);
      FilterSingle(x, query, filter, showCompleted);
      assert [x][1..] == [];
      assert WithKey(head, k) == FilterTasks(keyed, query, filter, showCompleted);
    }
  }

  /** The visible list is a permutation of the matching rows: nothing is
      added, dropped or duplicated; a row is visible iff it is stored and
      matches; it is sorted; and the visible rows sharing a key appear in
      their stored order. */
  lemma VisibleListSpec(rows: seq<Task>, query: string, filter: Option<Priority>, showCompleted: bool, k: SortKey)
    ensures var r := VisibleList(rows, query, filter, showCompleted);
      && |r| <= |rows|
      && (forall t :: t in r <==> t in rows && Matches(t, query, filter, showCompleted))
      && WithKey(r, k) == FilterTasks(WithKey(rows, k), query, filter, showCompleted)
  {
    var f := FilterTasks(rows, query, filter, showCompleted);
    SortStable(f, k);
    FilterWithKey(rows, query, filter, showCompleted, k);
    assert |SortTasks(f)| == |multiset(SortTasks(f))| == |multiset(f)| == |f|;
  }

  /** Applying the same settings to the visible list again gives it back. */
  lemma VisibleListIdempotent(rows: seq<Task>, query: string, filter: Option<Priority>, showCompleted: bool)
    ensures var r := VisibleList(rows, query, filter, showCompleted);
      VisibleList(r, query, filter, showCompleted) == r
  {
    var f := FilterTasks(rows, query, filter, showCompleted);
    var r := SortTasks(f);
    assert FilterTasks(r, query, filter, showCompleted) == r by {
      FilterCounts(rows, query, filter, showCompleted);
      forall t | t in r ensures Matches(t, query, filter, showCompleted) {
        assert multiset(f)[t] == multiset(r)[t] > 0;
      }
      FilterKeepsAll(r, query, filter, showCompleted);
    }
    SortOfSorted(r);
  }

  /** Filtering a sequence whose rows all match keeps it whole. */
  lemma {:induction false} FilterKeepsAll(s: seq<Task>, query: string, filter: Option<Priority>, showCompleted: bool)
    requires forall t :: t in s ==> Matches(t, query, filter, showCompleted)
    ensures FilterTasks(s, query, filter, showCompleted) == s
  {
    if |s| > 0 {
      FilterKeepsAll(s[1..], query, filter, showCompleted);
      assert s == [s[0]] + s[1..];
    }
  }

  /** The empty query matches every row. */
  lemma EmptyQueryMatchesAll(t: Task)
    ensures Matches(t, "", None, true)
  {
    ContainsEmpty(t.title);
  }

  /** A row whose stored priority lies outside 0..2 is hidden by every
      priority filter, although it sorts as `Medium`. */
  lemma OutOfRangePriorityHiddenByFilter(t: Task, query: string, p: Priority, showCompleted: bool)
    requires t.priority !in {0, 1, 2}
    ensures !Matches(t, query, Some(p), showCompleted)
    ensures KeyOf(t).rank == Medium.Value()
  {
  }

  /** A due date of `Long.MAX_VALUE` ties with "no due date" in the order. */
  lemma MaxDueDateTiesWithNone(t: Task)
    requires t.dueDate == Some(LONG_MAX)
    ensures KeyOf(t) == KeyOf(t.(dueDate := None))
  {
  }
}
