/** The `tasks` table as the ViewModel sees it through the DAO: rows keyed
    by id, with an AUTOINCREMENT counter so that ids are never reused. */
module TaskStore {

  import opened TaskEntity

  datatype Store = Store(rows: map<int, Task>, nextId: int)

  /** A fresh database: no rows, and the first id handed out is 1. */
  const EMPTY_STORE: Store := Store(map[], 1)

  /** Each row is filed under its own id, and every id is positive and
      below the next id to be handed out. */
  ghost predicate Valid(s: Store) {
    && s.nextId >= 1
    && forall id :: id in s.rows ==> s.rows[id].id == id && 0 < id < s.nextId
  }

  /** `insertTask`: the ViewModel only inserts tasks carrying the unsaved
      id 0, which AUTOINCREMENT replaces by the next id. */
  function Insert(s: Store, t: Task): (r: (Store, int))
    requires Valid(s)
    ensures var (s', id) := r;
      && Valid(s')
      && id !in s.rows
      && (forall old_id :: old_id in s.rows ==> old_id < id)
      && s'.rows == s.rows[id := t.(id := id)]
      && |s'.rows| == |s.rows| + 1
      && s'.nextId > s.nextId
  {
    var id := s.nextId;
    (Store(s.rows[id := t.(id := id)], id + 1), id)
  }

  /** `updateTask`: replaces the row with the same id; a row that is not
      there is left absent. */
  function Update(s: Store, t: Task): (r: Store)
    requires Valid(s)
    ensures Valid(r)
    ensures r.nextId == s.nextId && r.rows.Keys == s.rows.Keys
    ensures t.id in s.rows ==> r.rows[t.id] == t
    ensures forall id :: id in s.rows && id != t.id ==> r.rows[id] == s.rows[id]
  {
    if t.id in s.rows then Store(s.rows[t.id := t], s.nextId) else s
  }

  /** `deleteTask`: removes the row with the task's id, if any. */
  function Delete(s: Store, t: Task): (r: Store)
    requires Valid(s)
    ensures Valid(r)
    ensures r.nextId == s.nextId && r.rows.Keys == s.rows.Keys - {t.id}
    ensures forall id :: id in r.rows ==> r.rows[id] == s.rows[id]
  {
    Store(s.rows - {t.id}, s.nextId)
  }

  /** The empty table is valid, reads as no rows, and hands out id 1
      first. */
  lemma EmptyStoreStart(t: Task)
    ensures Valid(EMPTY_STORE) && Rows(EMPTY_STORE) == []
    ensures Insert(EMPTY_STORE, t).1 == 1
    ensures Rows(Insert(EMPTY_STORE, t).0) == [t.(id := 1)]
  {
    assert Rows(Insert(EMPTY_STORE, t).0) == RowsBelow(map[1 := t.(id := 1)], 2);
  }

  /** An id freed by a delete is never handed out again. */
  lemma IdsNeverReused(s: Store, t: Task, u: Task)
    requires Valid(s) && t.id in s.rows
    ensures Insert(Delete(s, t), u).1 != t.id
  {
  }

  // ---------------------------------------------------------------------
  // Reading the table
  // ---------------------------------------------------------------------

  /** The rows with ids 1..n-1, in ascending id order. */
  function RowsBelow(m: map<int, Task>, n: int): seq<Task>
    decreases n
  {
    if n <= 1 then [] else RowsBelow(m, n - 1) + (if n - 1 in m then [m[n - 1]] else [])
  }

  /** `getAllTasks()`: the full row set. Read from a valid store it lists
      each row exactly once, in ascending id order, and nothing else. */
  function Rows(s: Store): (r: seq<Task>)
    ensures Valid(s) ==> |r| == |s.rows|
    ensures Valid(s) ==> forall t :: t in r <==> t.id in s.rows && s.rows[t.id] == t
    ensures Valid(s) ==> forall i, j :: 0 <= i < j < |r| ==> r[i].id < r[j].id
  {
    RowsBelowLength(s.rows, s.nextId);
    RowsBelowSound(s.rows, s.nextId);
    RowsBelowComplete(s.rows, s.nextId);
    assert Valid(s) ==> KeysBelow(s.rows, s.nextId) == s.rows.Keys;
    RowsBelow(s.rows, s.nextId)
  }

  ghost function KeysBelow(m: map<int, Task>, n: int): set<int> {
    set id | id in m && 0 < id < n
  }

  lemma {:induction false} RowsBelowLength(m: map<int, Task>, n: int)
    ensures |RowsBelow(m, n)| == |KeysBelow(m, n)|
    decreases n
  {
    if n > 1 {
      RowsBelowLength(m, n - 1);
      if n - 1 in m {
        assert KeysBelow(m, n) == KeysBelow(m, n - 1) + {n - 1};
      } else {
        assert KeysBelow(m, n) == KeysBelow(m, n - 1);
      }
    } else {
      assert KeysBelow(m, n) == {};
    }
  }

  /** Every listed row is the row filed under its id, and ids ascend. */
  lemma {:induction false} RowsBelowSound(m: map<int, Task>, n: int)
    ensures (forall id :: id in m ==> m[id].id == id) ==>
      forall i :: 0 <= i < |RowsBelow(m, n)| ==>
        var t := RowsBelow(m, n)[i]; t.id in m && m[t.id] == t && 0 < t.id < n
    ensures (forall id :: id in m ==> m[id].id == id) ==>
      forall i, j :: 0 <= i < j < |RowsBelow(m, n)| ==> RowsBelow(m, n)[i].id < RowsBelow(m, n)[j].id
    decreases n
  {
    if n > 1 && forall id :: id in m ==> m[id].id == id {
      RowsBelowSound(m, n - 1);
      var prev := RowsBelow(m, n - 1);
      if n - 1 in m {
        assert RowsBelow(m, n) == prev + [m[n - 1]];
      } else {
        assert RowsBelow(m, n) == prev;
      }
    }
  }

  /** Every row with an id in 1..n-1 is listed. */
  lemma {:induction false} RowsBelowComplete(m: map<int, Task>, n: int)
    ensures forall id :: id in m && 0 < id < n ==> m[id] in RowsBelow(m, n)
    decreases n
  {
    if n > 1 {
      RowsBelowComplete(m, n - 1);
    }
  }
}
