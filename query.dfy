/**
 * The query engine: the filter/sort pipeline of `renderTasks`, the
 * filter/sort pipeline of `renderNotes` and the counters of `updateStats`.
 * Every view is a function of the stored list and the session settings.
 */
module Query {
  import opened Wrappers
  import opened Seqs
  import opened Text
  import opened Entities
  import Dates

  /** `state.filter`, the active status chip. */
  datatype TaskFilter = All | Pending | Completed | Overdue | Today

  /** `state.sortBy`; any value the selector does not offer sorts as `ByDeadline`. */
  datatype SortKey = ByPriority | ByCreated | ByTitle | ByDeadline

  // ------------------------------------------------------------ task view

  /** The search clause of `renderTasks`; `search` is already trimmed and lower-cased. */
  predicate MatchesTaskSearch(t: Task, search: string) {
    search == [] || Includes(Lower(t.title), search) || Includes(Lower(t.notes), search)
  }

  /** The status clause of `renderTasks`. */
  predicate PassesFilter(t: Task, f: TaskFilter, today: int) {
    match f
    case All => true
    case Pending => !t.completed
    case Completed => t.completed
    case Overdue => !t.completed && Dates.IsOverdue(t.due, today)
    case Today => Dates.IsToday(t.due, today)
  }

  function TaskSearch(search: string): Task -> bool {
    (t: Task) => MatchesTaskSearch(t, search)
  }

  function TaskStatus(f: TaskFilter, today: int): Task -> bool {
    (t: Task) => PassesFilter(t, f, today)
  }

  function TaskSelected(search: string, f: TaskFilter, today: int): Task -> bool {
    (t: Task) => MatchesTaskSearch(t, search) && PassesFilter(t, f, today)
  }

  /** The `filtered` list of `renderTasks`: the search filter followed by the status filter. */
  function FilterTasks(tasks: seq<Task>, search: string, f: TaskFilter, today: int): seq<Task> {
    Filter(Filter(tasks, TaskSearch(search)), TaskStatus(f, today))
  }

  /** The ISO date a task sorts by under `deadline`; a task without one sorts as `'9999-12-31'`. */
  function DueKey(t: Task): int {
    t.due.GetOr(Dates.UndatedKey)
  }

  /** The sign of `x - y`, as `localeCompare` returns it for two ISO dates. */
  function CompareInts(x: int, y: int): int {
    if x < y then -1 else if x == y then 0 else 1
  }

  /** The comparator `renderTasks` hands to `sort`. */
  function CompareTasks(a: Task, b: Task, key: SortKey): int {
    match key
    case ByPriority => PriorityRank(b.priority) - PriorityRank(a.priority)
    case ByCreated => b.created - a.created
    case ByTitle => LexCompare(a.title, b.title)
    case ByDeadline => CompareInts(DueKey(a), DueKey(b))
  }

  /** `a` may precede `b`: the comparator does not put `b` first. */
  function TaskOrder(key: SortKey): (Task, Task) -> bool {
    (a: Task, b: Task) => CompareTasks(a, b, key) <= 0
  }

  /** The `sorted` list `renderTasks` displays. */
  function TaskView(tasks: seq<Task>, search: string, f: TaskFilter, key: SortKey, today: int): seq<Task> {
    SortBy(FilterTasks(tasks, search, f, today), TaskOrder(key))
  }

  /** Every comparator the sort selector offers is consistent: total and transitive. */
  lemma TaskOrderIsTotalPreorder(key: SortKey)
    ensures TotalPreorder(TaskOrder(key))
  {
    var leq := TaskOrder(key);
    if key == ByTitle {
      forall a: Task, b: Task ensures leq(a, b) || leq(b, a) {
        LexCompareAntisymmetric(a.title, b.title);
      }
      forall a: Task, b: Task, c: Task | leq(a, b) && leq(b, c) ensures leq(a, c) {
        LexCompareTransitive(a.title, b.title, c.title);
      }
    }
  }

  /**
   * The filtered list keeps, in their stored order, exactly the tasks that
   * match the search and pass the chip; the two chained filters are one
   * filter by both conditions.
   */
  lemma {:induction false} FilterTasksSpec(tasks: seq<Task>, search: string, f: TaskFilter, today: int)
    ensures FilterTasks(tasks, search, f, today) == Filter(tasks, TaskSelected(search, f, today))
    ensures IsSubsequence(FilterTasks(tasks, search, f, today), tasks)
    ensures forall t :: t in FilterTasks(tasks, search, f, today) <==>
      t in tasks && MatchesTaskSearch(t, search) && PassesFilter(t, f, today)
  {
    FilterFilter(tasks, TaskSearch(search), TaskStatus(f, today), TaskSelected(search, f, today));
    FilterIsSubsequence(tasks, TaskSelected(search, f, today));
  }

  /** What each chip lets through; a task without a due date is never overdue and never due today. */
  lemma PassesFilterMeaning(t: Task, today: int)
    ensures PassesFilter(t, All, today)
    ensures PassesFilter(t, Pending, today) <==> !t.completed
    ensures PassesFilter(t, Completed, today) <==> t.completed
    ensures PassesFilter(t, Overdue, today) <==> !t.completed && t.due.Some? && t.due.value < today
    ensures PassesFilter(t, Today, today) <==> t.due == Some(today)
    ensures t.due.None? ==> !PassesFilter(t, Overdue, today) && !PassesFilter(t, Today, today)
  {
  }

  /** An empty search matches every task. */
  lemma EmptyTaskSearchKeepsAll(tasks: seq<Task>)
    ensures Filter(tasks, TaskSearch([])) == tasks
  {
    FilterKeepsAll(tasks, TaskSearch([]));
  }

  /**
   * The displayed list is a permutation of the filtered list, ordered by the
   * selected key: priority high to low, creation newest first, titles in
   * ascending order, due dates earliest first.
   */
  lemma TaskViewSpec(tasks: seq<Task>, search: string, f: TaskFilter, key: SortKey, today: int)
    ensures multiset(TaskView(tasks, search, f, key, today)) == multiset(FilterTasks(tasks, search, f, today))
    ensures var v := TaskView(tasks, search, f, key, today);
      && (key == ByPriority ==> forall i, j :: 0 <= i < j < |v| ==> PriorityRank(v[i].priority) >= PriorityRank(v[j].priority))
      && (key == ByCreated ==> forall i, j :: 0 <= i < j < |v| ==> v[i].created >= v[j].created)
      && (key == ByTitle ==> forall i, j :: 0 <= i < j < |v| ==> LexCompare(v[i].title, v[j].title) <= 0)
      && (key == ByDeadline ==> forall i, j :: 0 <= i < j < |v| ==> DueKey(v[i]) <= DueKey(v[j]))
  {
    var v := TaskView(tasks, search, f, key, today);
    TaskViewSorted(tasks, search, f, key, today);
    forall i, j | 0 <= i < j < |v| ensures CompareTasks(v[i], v[j], key) <= 0 {
      assert TaskOrder(key)(v[i], v[j]);
    }
  }

  lemma TaskViewSorted(tasks: seq<Task>, search: string, f: TaskFilter, key: SortKey, today: int)
    ensures SortedBy(TaskView(tasks, search, f, key, today), TaskOrder(key))
    ensures multiset(TaskView(tasks, search, f, key, today)) == multiset(FilterTasks(tasks, search, f, today))
  {
    TaskOrderIsTotalPreorder(key);
    SortBySorted(FilterTasks(tasks, search, f, today), TaskOrder(key));
  }

  /**
   * Under the deadline key, every task with a due date before `'9999-12-31'`
   * is listed before every task without a due date.
   */
  lemma DatedBeforeUndated(tasks: seq<Task>, search: string, f: TaskFilter, today: int)
    requires forall t :: t in tasks && t.due.Some? ==> t.due.value < Dates.UndatedKey
    ensures var v := TaskView(tasks, search, f, ByDeadline, today);
      forall i, j :: 0 <= i < |v| && 0 <= j < |v| && v[i].due.Some? && v[j].due.None? ==> i < j
  {
    var v := TaskView(tasks, search, f, ByDeadline, today);
    TaskViewSorted(tasks, search, f, ByDeadline, today);
    FilterTasksSpec(tasks, search, f, today);
    forall t | t in v ensures t in tasks {
      assert t in multiset(v);
    }
    UndatedLast(v);
  }

  /** In a list sorted by due key whose dates all precede the sentinel, the dated tasks come first. */
  lemma UndatedLast(v: seq<Task>)
    requires SortedBy(v, TaskOrder(ByDeadline))
    requires forall t :: t in v && t.due.Some? ==> t.due.value < Dates.UndatedKey
    ensures forall i, j :: 0 <= i < |v| && 0 <= j < |v| && v[i].due.Some? && v[j].due.None? ==> i < j
  {
    forall i, j | 0 <= i < |v| && 0 <= j < |v| && v[i].due.Some? && v[j].due.None? ensures i < j {
      assert v[i] in v;
    }
  }

  /** A task matches the same searches whatever the case of its title and notes. */
  lemma SearchIgnoresCase(t: Task, search: string)
    ensures MatchesTaskSearch(t.(title := Lower(t.title), notes := Lower(t.notes)), search)
      <==> MatchesTaskSearch(t, search)
  {
    LowerIdempotent(t.title);
    LowerIdempotent(t.notes);
  }

  /**
   * The sort is stable: tasks the selected comparator ranks level with `z`
   * are displayed in the order the filtered list has them.
   */
  lemma TaskViewKeepsTies(tasks: seq<Task>, search: string, f: TaskFilter, key: SortKey, today: int, z: Task)
    ensures Filter(TaskView(tasks, search, f, key, today), Tied(TaskOrder(key), z))
      == Filter(FilterTasks(tasks, search, f, today), Tied(TaskOrder(key), z))
  {
    TaskOrderIsTotalPreorder(key);
    SortByStable(FilterTasks(tasks, search, f, today), TaskOrder(key), z);
  }

  function HasPriority(p: Priority): Task -> bool {
    (t: Task) => t.priority == p
  }

  /** Sorted by priority, the displayed tasks of each priority keep their stored order. */
  lemma PriorityViewKeepsStoredOrder(tasks: seq<Task>, search: string, f: TaskFilter, today: int, p: Priority)
    ensures Filter(TaskView(tasks, search, f, ByPriority, today), HasPriority(p))
      == Filter(FilterTasks(tasks, search, f, today), HasPriority(p))
  {
    var z := Task([], [], [], p, None, false, 0);
    var tied := Tied(TaskOrder(ByPriority), z);
    forall t: Task ensures tied(t) == HasPriority(p)(t) {
      PriorityRankInjective(t.priority, p);
    }
    TaskViewKeepsTies(tasks, search, f, ByPriority, today, z);
    FilterExtensional(TaskView(tasks, search, f, ByPriority, today), tied, HasPriority(p));
    FilterExtensional(FilterTasks(tasks, search, f, today), tied, HasPriority(p));
  }

  // ------------------------------------------------------------ note view

  /** One search clause of `renderNotes`, over the title and the content. */
  predicate MatchesNoteSearch(n: Note, search: string) {
    search == [] || Includes(Lower(n.title), search) || Includes(Lower(n.content), search)
  }

  function NoteSelected(search: string, noteSearch: string): Note -> bool {
    (n: Note) => MatchesNoteSearch(n, search) && MatchesNoteSearch(n, noteSearch)
  }

  /** The comparator `(a, b) => b.updated - a.updated`, as "may precede". */
  function NoteOrder(): (Note, Note) -> bool {
    (a: Note, b: Note) => b.updated - a.updated <= 0
  }

  /** The list `renderNotes` displays: both searches, then most recently updated first. */
  function NoteView(notes: seq<Note>, search: string, noteSearch: string): seq<Note> {
    SortBy(Filter(notes, NoteSelected(search, noteSearch)), NoteOrder())
  }

  /**
   * The notes view is a permutation of the notes matching both the global
   * search and the note search, newest update first.
   */
  lemma NoteViewSpec(notes: seq<Note>, search: string, noteSearch: string)
    ensures multiset(NoteView(notes, search, noteSearch)) == multiset(Filter(notes, NoteSelected(search, noteSearch)))
    ensures IsSubsequence(Filter(notes, NoteSelected(search, noteSearch)), notes)
    ensures forall n :: n in NoteView(notes, search, noteSearch) <==>
      n in notes && MatchesNoteSearch(n, search) && MatchesNoteSearch(n, noteSearch)
    ensures var v := NoteView(notes, search, noteSearch);
      forall i, j :: 0 <= i < j < |v| ==> v[i].updated >= v[j].updated
  {
    var filtered := Filter(notes, NoteSelected(search, noteSearch));
    SortBySorted(filtered, NoteOrder());
    FilterIsSubsequence(notes, NoteSelected(search, noteSearch));
    var v := NoteView(notes, search, noteSearch);
    forall n ensures n in v <==> n in filtered {
      assert n in v <==> n in multiset(v);
    }
  }

  function UpdatedAt(u: int): Note -> bool {
    (n: Note) => n.updated == u
  }

  /** Notes updated at the same instant are displayed in their stored order. */
  lemma NoteViewKeepsStoredOrder(notes: seq<Note>, search: string, noteSearch: string, u: int)
    ensures Filter(NoteView(notes, search, noteSearch), UpdatedAt(u))
      == Filter(Filter(notes, NoteSelected(search, noteSearch)), UpdatedAt(u))
  {
    var z := Note([], [], [], 0, u);
    var tied := Tied(NoteOrder(), z);
    var filtered := Filter(notes, NoteSelected(search, noteSearch));
    assert forall n: Note :: tied(n) == UpdatedAt(u)(n);
    SortByStable(filtered, NoteOrder(), z);
    FilterExtensional(NoteView(notes, search, noteSearch), tied, UpdatedAt(u));
    FilterExtensional(filtered, tied, UpdatedAt(u));
  }

  // ------------------------------------------------------------- counters

  /** The four numbers `updateStats` shows. */
  datatype Stats = Stats(total: nat, completed: nat, dueToday: nat, overdue: nat)

  predicate IsCompleted(t: Task) {
    t.completed
  }

  function OpenDueToday(today: int): Task -> bool {
    (t: Task) => Dates.IsToday(t.due, today) && !t.completed
  }

  function OpenOverdue(today: int): Task -> bool {
    (t: Task) => Dates.IsOverdue(t.due, today) && !t.completed
  }

  function ComputeStats(tasks: seq<Task>, today: int): Stats {
    Stats(
      |tasks|,
      |Filter(tasks, IsCompleted)|,
      |Filter(tasks, OpenDueToday(today))|,
      |Filter(tasks, OpenOverdue(today))|)
  }

  /**
   * Completed, due-today and overdue tasks are three disjoint groups: the
   * counters add up to at most the total, so `completed <= total`.
   */
  lemma StatsBounds(tasks: seq<Task>, today: int)
    ensures var s := ComputeStats(tasks, today);
      s.completed <= s.total && s.completed + s.dueToday + s.overdue <= s.total
  {
    var doneOrToday := (t: Task) => IsCompleted(t) || OpenDueToday(today)(t);
    var counted := (t: Task) => doneOrToday(t) || OpenOverdue(today)(t);
    FilterDisjointCount(tasks, IsCompleted, OpenDueToday(today), doneOrToday);
    FilterDisjointCount(tasks, doneOrToday, OpenOverdue(today), counted);
  }

  /**
   * The counters agree with the chips (with an empty search): total, completed
   * and overdue count exactly what those chips list; the today counter leaves
   * out the completed tasks the today chip lists.
   */
  lemma StatsMatchFilters(tasks: seq<Task>, today: int)
    ensures var s := ComputeStats(tasks, today);
      && s.total == |FilterTasks(tasks, [], All, today)|
      && s.completed == |FilterTasks(tasks, [], Completed, today)|
      && s.overdue == |FilterTasks(tasks, [], Overdue, today)|
      && s.dueToday <= |FilterTasks(tasks, [], Today, today)|
  {
    EmptyTaskSearchKeepsAll(tasks);
    FilterKeepsAll(tasks, TaskStatus(All, today));
    FilterExtensional(tasks, IsCompleted, TaskStatus(Completed, today));
    FilterExtensional(tasks, OpenOverdue(today), TaskStatus(Overdue, today));
    var doneToday := (t: Task) => Dates.IsToday(t.due, today) && t.completed;
    FilterDisjointCount(tasks, OpenDueToday(today), doneToday, TaskStatus(Today, today));
  }
}
