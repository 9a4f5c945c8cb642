/**
 * The two records the planner stores. Dates are calendar day numbers (days
 * since 1970-01-01), timestamps are milliseconds since the epoch.
 */
module Entities {
  import opened Wrappers

  datatype Priority = Low | Medium | High

  /** A task; `notes` is "" when the user left it empty, `due` is absent when no date was picked. */
  datatype Task = Task(
    id: string,
    title: string,
    notes: string,
    priority: Priority,
    due: Option<int>,
    completed: bool,
    created: int)

  /** A note; `updated` is refreshed on every save. */
  datatype Note = Note(
    id: string,
    title: string,
    content: string,
    created: int,
    updated: int)

  function TaskId(t: Task): string { t.id }

  function NoteId(n: Note): string { n.id }

  /** `t => t.id === id` */
  function TaskHasId(id: string): Task -> bool {
    (t: Task) => t.id == id
  }

  /** `t => t.id !== id` */
  function TaskLacksId(id: string): Task -> bool {
    (t: Task) => t.id != id
  }

  /** `n => n.id === id` */
  function NoteHasId(id: string): Note -> bool {
    (n: Note) => n.id == id
  }

  /** `n => n.id !== id` */
  function NoteLacksId(id: string): Note -> bool {
    (n: Note) => n.id != id
  }

  /** `priorityRank`: a rank from 1 to 3, high on top and low at the bottom. */
  function PriorityRank(p: Priority): (r: int)
    ensures 1 <= r <= 3
    ensures r == 3 <==> p == High
    ensures r == 1 <==> p == Low
  {
    match p
    case High => 3
    case Medium => 2
    case Low => 1
  }

  /** Distinct priorities get distinct ranks, so sorting by rank groups tasks by priority. */
  lemma PriorityRankInjective(p: Priority, q: Priority)
    ensures PriorityRank(p) == PriorityRank(q) ==> p == q
  {
  }
}
