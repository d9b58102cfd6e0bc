/** The `tasks` row: one to-do item as stored in the database. */
module TaskEntity {

  import opened Wrappers
  import opened Ints

  /** `0xFF6200EE.toInt()`: the entity's default colour. */
  const DEFAULT_COLOR: Int32 := ToInt32(0xFF6200EE)

  /** The placeholder id of a task not yet inserted; the store assigns the
      real one. */
  const UNSAVED_ID: int := 0

  /** The stored `priority` when none is chosen (`Medium`). */
  const DEFAULT_PRIORITY: int := 1

  /** A task row. `priority` is the raw stored integer and may lie outside
      0..2; `dueDate` and `completedAt` are the two nullable columns. */
  datatype Task = Task(
    id: int,
    title: string,
    description: string,
    phoneNumber: string,
    priority: int,
    dueDate: Option<Int64>,
    done: bool,
    createdAt: Int64,
    completedAt: Option<Int64>,
    color: Int32
  )

  /** `TaskEntity(title = title)` created at time `now`: every other field
      takes its declared default. */
  function NewTask(title: string, now: Int64): (t: Task)
    ensures t.id == UNSAVED_ID && t.title == title && t.createdAt == now
    ensures t.description == "" && t.phoneNumber == ""
    ensures t.priority == DEFAULT_PRIORITY && t.dueDate == None
    ensures !t.done && t.completedAt == None
    ensures t.color == -10354450
    ensures CompletionConsistent(t)
  {
    Task(UNSAVED_ID, title, "", "", DEFAULT_PRIORITY, None, false, now, None, DEFAULT_COLOR)
  }

  /** The intended relation between `done` and `completedAt`: a completion
      time is recorded exactly for done tasks. Rows need not satisfy it. */
  predicate CompletionConsistent(t: Task) {
    t.done <==> t.completedAt.Some?
  }

  /** The default colour is the signed 32-bit reading of 0xFF6200EE. */
  lemma DefaultColorValue()
    ensures DEFAULT_COLOR == -10354450 == 0xFF6200EE - 0x1_0000_0000
  {
  }
}
