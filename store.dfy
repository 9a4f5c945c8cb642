/**
 * The planner's mutable `state`: the two stored lists and the session
 * settings, with the handlers that change them (task and note submission,
 * deletion, the completion checkbox, the search inputs, the sort selector
 * and the filter chips). Persisting after a change is not modelled.
 */
module Store {
  import opened Wrappers
  import opened Seqs
  import opened Text
  import opened Entities
  import Query

  /** The task dialog's fields as submitted; `due` is absent when the date input is empty. */
  datatype TaskForm = TaskForm(id: string, title: string, notes: string, priority: Option<Priority>, due: Option<int>)

  /** The note dialog's fields as submitted. */
  datatype NoteForm = NoteForm(id: string, title: string, content: string)

  /** `String(data.get('id')) || uid()`: the hidden id field, or a fresh id when it is empty. */
  function SubmittedId(formId: string, freshId: string): string {
    if formId != [] then formId else freshId
  }

  /** `openTaskDialog(task)`: the form pre-filled from a stored task. */
  function EditTaskForm(t: Task): TaskForm {
    TaskForm(t.id, t.title, t.notes, Some(t.priority), t.due)
  }

  /**
   * The `incoming` task of `onTaskSubmit`: the submitted fields, with
   * `completed` and `created` taken from the first stored task with the same
   * id, or `false` and `now` when there is none.
   */
  function IncomingTask(form: TaskForm, id: string, tasks: seq<Task>, now: int): (t: Task)
    ensures t.id == id && t.title == Trim(form.title) && t.notes == form.notes && t.due == form.due
    ensures t.priority == form.priority.GetOr(Medium)
    ensures forall k :: FirstMatchAt(tasks, TaskHasId(id), k) ==>
      t.completed == tasks[k].completed && t.created == tasks[k].created
    ensures (forall k :: 0 <= k < |tasks| ==> tasks[k].id != id) ==> !t.completed && t.created == now
  {
    var prior := Find(tasks, TaskHasId(id));
    Task(id, Trim(form.title), form.notes, form.priority.GetOr(Medium), form.due,
      if prior.Some? then prior.value.completed else false,
      if prior.Some? then prior.value.created else now)
  }

  /**
   * The `incoming` note of `onNoteSubmit`: the submitted fields, `created`
   * taken from the first stored note with the same id (or `now`), and
   * `updated` set to `now`.
   */
  function IncomingNote(form: NoteForm, id: string, notes: seq<Note>, now: int): (n: Note)
    ensures n.id == id && n.title == Trim(form.title) && n.content == form.content && n.updated == now
    ensures forall k :: FirstMatchAt(notes, NoteHasId(id), k) ==> n.created == notes[k].created
    ensures (forall k :: 0 <= k < |notes| ==> notes[k].id != id) ==> n.created == now
  {
    var prior := Find(notes, NoteHasId(id));
    Note(id, Trim(form.title), form.content, if prior.Some? then prior.value.created else now, now)
  }

  /**
   * The task list after `onTaskSubmit`: unchanged when the trimmed title is
   * empty; otherwise every task with the submitted id is replaced by the
   * incoming task, or the incoming task is appended when the id is new.
   */
  function TasksAfterSubmit(tasks: seq<Task>, form: TaskForm, freshId: string, now: int): seq<Task> {
    var id := SubmittedId(form.id, freshId);
    if Trim(form.title) == [] then tasks
    else
      var incoming := IncomingTask(form, id, tasks, now);
      if Any(tasks, TaskHasId(id)) then ReplaceWhere(tasks, TaskHasId(id), incoming)
      else tasks + [incoming]
  }

  /** A submission whose title trims to nothing changes nothing. */
  lemma SubmitTaskEmptyTitle(tasks: seq<Task>, form: TaskForm, freshId: string, now: int)
    requires forall i :: 0 <= i < |form.title| ==> IsSpace(form.title[i])
    ensures TasksAfterSubmit(tasks, form, freshId, now) == tasks
  {
  }

  /**
   * Saving under an id that is stored edits in place: the length is kept
   * and each task with that id becomes the incoming task, the others staying
   * where they were.
   */
  lemma SubmitTaskEditsInPlace(tasks: seq<Task>, form: TaskForm, freshId: string, now: int)
    requires Trim(form.title) != []
    requires exists k :: 0 <= k < |tasks| && tasks[k].id == SubmittedId(form.id, freshId)
    ensures var id := SubmittedId(form.id, freshId);
      var incoming := IncomingTask(form, id, tasks, now);
      var r := TasksAfterSubmit(tasks, form, freshId, now);
      && r == ReplaceWhere(tasks, TaskHasId(id), incoming)
      && |r| == |tasks|
      && (forall i :: 0 <= i < |r| ==> r[i] == if tasks[i].id == id then incoming else tasks[i])
  {
    var id := SubmittedId(form.id, freshId);
    var k :| 0 <= k < |tasks| && tasks[k].id == id;
    assert TaskHasId(id)(tasks[k]);
  }

  /** Saving under a stored id leaves the tasks with other ids as they were, in order. */
  lemma SubmitTaskKeepsOthers(tasks: seq<Task>, form: TaskForm, freshId: string, now: int)
    requires exists k :: 0 <= k < |tasks| && tasks[k].id == SubmittedId(form.id, freshId)
    ensures var id := SubmittedId(form.id, freshId);
      Filter(TasksAfterSubmit(tasks, form, freshId, now), TaskLacksId(id)) == Filter(tasks, TaskLacksId(id))
  {
    if Trim(form.title) != [] {
      var id := SubmittedId(form.id, freshId);
      SubmitTaskEditsInPlace(tasks, form, freshId, now);
      ReplaceWhereKeepsOthers(tasks, TaskHasId(id), TaskLacksId(id), IncomingTask(form, id, tasks, now));
    }
  }

  /**
   * Saving under a new id appends a new, open task created at `now`.
   */
  lemma SubmitTaskAppends(tasks: seq<Task>, form: TaskForm, freshId: string, now: int)
    requires Trim(form.title) != []
    requires forall k :: 0 <= k < |tasks| ==> tasks[k].id != SubmittedId(form.id, freshId)
    ensures var incoming := IncomingTask(form, SubmittedId(form.id, freshId), tasks, now);
      && TasksAfterSubmit(tasks, form, freshId, now) == tasks + [incoming]
      && incoming.title == Trim(form.title) && !incoming.completed && incoming.created == now
  {
  }

  /** Unique task ids stay unique across a submission. */
  lemma SubmitTaskKeepsDistinct(tasks: seq<Task>, form: TaskForm, freshId: string, now: int)
    requires DistinctBy(tasks, TaskId)
    ensures DistinctBy(TasksAfterSubmit(tasks, form, freshId, now), TaskId)
  {
    var id := SubmittedId(form.id, freshId);
    if Trim(form.title) != [] {
      var incoming := IncomingTask(form, id, tasks, now);
      if Any(tasks, TaskHasId(id)) {
        ReplaceWhereKeepsDistinct(tasks, TaskHasId(id), incoming, TaskId);
      } else {
        AddFreshKeepsDistinct(tasks, incoming, TaskId);
      }
    }
  }

  /**
   * The note list after `onNoteSubmit`: unchanged when the trimmed title is
   * empty; otherwise every note with the submitted id is replaced by the
   * incoming note, or the incoming note goes to the front when the id is new.
   */
  function NotesAfterSubmit(notes: seq<Note>, form: NoteForm, freshId: string, now: int): seq<Note> {
    var id := SubmittedId(form.id, freshId);
    if Trim(form.title) == [] then notes
    else
      var incoming := IncomingNote(form, id, notes, now);
      if Any(notes, NoteHasId(id)) then ReplaceWhere(notes, NoteHasId(id), incoming)
      else [incoming] + notes
  }

  /** A note submission whose title trims to nothing changes nothing. */
  lemma SubmitNoteEmptyTitle(notes: seq<Note>, form: NoteForm, freshId: string, now: int)
    requires forall i :: 0 <= i < |form.title| ==> IsSpace(form.title[i])
    ensures NotesAfterSubmit(notes, form, freshId, now) == notes
  {
  }

  /**
   * Saving a note under an id that is stored edits in place: the length is kept
   * and each note with that id becomes the incoming note, the others staying
   * where they were.
   */
  lemma SubmitNoteEditsInPlace(notes: seq<Note>, form: NoteForm, freshId: string, now: int)
    requires Trim(form.title) != []
    requires exists k :: 0 <= k < |notes| && notes[k].id == SubmittedId(form.id, freshId)
    ensures var id := SubmittedId(form.id, freshId);
      var incoming := IncomingNote(form, id, notes, now);
      var r := NotesAfterSubmit(notes, form, freshId, now);
      && r == ReplaceWhere(notes, NoteHasId(id), incoming)
      && |r| == |notes|
      && (forall i :: 0 <= i < |r| ==> r[i] == if notes[i].id == id then incoming else notes[i])
  {
    var id := SubmittedId(form.id, freshId);
    var k :| 0 <= k < |notes| && notes[k].id == id;
    assert NoteHasId(id)(notes[k]);
  }

  /** Saving a note under a stored id leaves the notes with other ids as they were, in order. */
  lemma SubmitNoteKeepsOthers(notes: seq<Note>, form: NoteForm, freshId: string, now: int)
    requires exists k :: 0 <= k < |notes| && notes[k].id == SubmittedId(form.id, freshId)
    ensures var id := SubmittedId(form.id, freshId);
      Filter(NotesAfterSubmit(notes, form, freshId, now), NoteLacksId(id)) == Filter(notes, NoteLacksId(id))
  {
    if Trim(form.title) != [] {
      var id := SubmittedId(form.id, freshId);
      SubmitNoteEditsInPlace(notes, form, freshId, now);
      ReplaceWhereKeepsOthers(notes, NoteHasId(id), NoteLacksId(id), IncomingNote(form, id, notes, now));
    }
  }

  /** Saving a note under a new id puts a note created and updated at `now` in front. */
  lemma SubmitNotePrepends(notes: seq<Note>, form: NoteForm, freshId: string, now: int)
    requires Trim(form.title) != []
    requires forall k :: 0 <= k < |notes| ==> notes[k].id != SubmittedId(form.id, freshId)
    ensures var incoming := IncomingNote(form, SubmittedId(form.id, freshId), notes, now);
      && NotesAfterSubmit(notes, form, freshId, now) == [incoming] + notes
      && incoming.title == Trim(form.title) && incoming.created == incoming.updated == now
  {
  }

  /** Unique note ids stay unique across a submission. */
  lemma SubmitNoteKeepsDistinct(notes: seq<Note>, form: NoteForm, freshId: string, now: int)
    requires DistinctBy(notes, NoteId)
    ensures DistinctBy(NotesAfterSubmit(notes, form, freshId, now), NoteId)
  {
    var id := SubmittedId(form.id, freshId);
    if Trim(form.title) != [] {
      var incoming := IncomingNote(form, id, notes, now);
      if Any(notes, NoteHasId(id)) {
        ReplaceWhereKeepsDistinct(notes, NoteHasId(id), incoming, NoteId);
      } else {
        AddFreshKeepsDistinct(notes, incoming, NoteId);
      }
    }
  }

  /** With unique ids, the task at `k` is the first and only one with its id. */
  lemma OnlyTaskWithId(tasks: seq<Task>, k: nat)
    requires k < |tasks| && DistinctBy(tasks, TaskId)
    ensures FirstMatchAt(tasks, TaskHasId(tasks[k].id), k)
    ensures forall j :: 0 <= j < |tasks| && j != k ==> !TaskHasId(tasks[k].id)(tasks[j])
  {
    forall j | 0 <= j < |tasks| && j != k ensures tasks[j].id != tasks[k].id {
      assert TaskId(tasks[j]) != TaskId(tasks[k]);
    }
  }

  /**
   * Opening a stored task for editing and saving it unchanged leaves the
   * task list as it was (ids unique, the stored title already trimmed).
   */
  lemma ResubmitUnchangedTask(tasks: seq<Task>, k: nat, freshId: string, now: int)
    requires k < |tasks| && DistinctBy(tasks, TaskId)
    requires tasks[k].id != [] && tasks[k].title != [] && Trim(tasks[k].title) == tasks[k].title
    ensures TasksAfterSubmit(tasks, EditTaskForm(tasks[k]), freshId, now) == tasks
  {
    var t := tasks[k];
    OnlyTaskWithId(tasks, k);
    var incoming := IncomingTask(EditTaskForm(t), t.id, tasks, now);
    assert incoming == t;
    ReplaceWhereSingle(tasks, TaskHasId(t.id), t, k);
    assert tasks[k := t] == tasks;
  }

  class Planner {
    var tasks: seq<Task>
    var notes: seq<Note>
    var filter: Query.TaskFilter
    var search: string
    var sortBy: Query.SortKey
    var noteSearch: string

    /** The initial `state`: the lists `load` returned, no search, no chip, sorted by deadline. */
    constructor (storedTasks: seq<Task>, storedNotes: seq<Note>)
      ensures tasks == storedTasks && notes == storedNotes
      ensures filter == Query.All && search == [] && sortBy == Query.ByDeadline && noteSearch == []
    {
      tasks := storedTasks;
      notes := storedNotes;
      filter := Query.All;
      search := [];
      sortBy := Query.ByDeadline;
      noteSearch := [];
    }

    /** The global search input: trimmed and lower-cased before it is stored. */
    method SetSearch(input: string)
      modifies this`search
      ensures search == Lower(Trim(input))
    {
      search := Lower(Trim(input));
    }

    /** The notes search input: trimmed and lower-cased before it is stored. */
    method SetNoteSearch(input: string)
      modifies this`noteSearch
      ensures noteSearch == Lower(Trim(input))
    {
      noteSearch := Lower(Trim(input));
    }

    /** The sort selector. */
    method SetSortBy(key: Query.SortKey)
      modifies this`sortBy
      ensures sortBy == key
    {
      sortBy := key;
    }

    /** A filter chip. */
    method SetFilter(f: Query.TaskFilter)
      modifies this`filter
      ensures filter == f
    {
      filter := f;
    }

    /**
     * `onTaskSubmit`: the task list becomes `TasksAfterSubmit` of the old
     * one (see the lemmas beside it for what that means).
     */
    method SubmitTask(form: TaskForm, freshId: string, now: int)
      modifies this`tasks
      ensures tasks == TasksAfterSubmit(old(tasks), form, freshId, now)
    {
      var id := SubmittedId(form.id, freshId);
      var title := Trim(form.title);
      if title == [] {
        return;
      }
      var incoming := IncomingTask(form, id, tasks, now);
      var present := Any(tasks, TaskHasId(id));
      if present {
        tasks := ReplaceWhere(tasks, TaskHasId(id), incoming);
      } else {
        tasks := tasks + [incoming];
      }
    }

    /** The completion checkbox of the task at `index`: only that task's `completed` changes. */
    method SetCompleted(index: nat, checked: bool)
      requires index < |tasks|
      modifies this`tasks
      ensures tasks == old(tasks)[index := old(tasks)[index].(completed := checked)]
      ensures DistinctBy(old(tasks), TaskId) ==> DistinctBy(tasks, TaskId)
    {
      tasks := tasks[index := tasks[index].(completed := checked)];
    }

    /**
     * The delete action of a task: every task with that id goes, the rest
     * stay in order, and an id that is not stored changes nothing.
     */
    method DeleteTask(id: string)
      modifies this`tasks
      ensures tasks == Filter(old(tasks), TaskLacksId(id))
      ensures IsSubsequence(tasks, old(tasks))
      ensures forall t :: t in tasks <==> t in old(tasks) && t.id != id
      ensures (forall i :: 0 <= i < |old(tasks)| ==> old(tasks)[i].id != id) ==> tasks == old(tasks)
      ensures DistinctBy(old(tasks), TaskId) ==> DistinctBy(tasks, TaskId)
    {
      FilterIsSubsequence(tasks, TaskLacksId(id));
      if forall i :: 0 <= i < |tasks| ==> tasks[i].id != id {
        FilterKeepsAll(tasks, TaskLacksId(id));
      }
      if DistinctBy(tasks, TaskId) {
        FilterKeepsDistinct(tasks, TaskLacksId(id), TaskId);
      }
      tasks := Filter(tasks, TaskLacksId(id));
    }

    /**
     * `onNoteSubmit`: the note list becomes `NotesAfterSubmit` of the old
     * one (see the lemmas beside it for what that means).
     */
    method SubmitNote(form: NoteForm, freshId: string, now: int)
      modifies this`notes
      ensures notes == NotesAfterSubmit(old(notes), form, freshId, now)
    {
      var id := SubmittedId(form.id, freshId);
      var title := Trim(form.title);
      if title == [] {
        return;
      }
      var incoming := IncomingNote(form, id, notes, now);
      var present := Any(notes, NoteHasId(id));
      if present {
        notes := ReplaceWhere(notes, NoteHasId(id), incoming);
      } else {
        notes := [incoming] + notes;
      }
    }

    /**
     * The delete action of a note: every note with that id goes, the rest
     * stay in order, and an id that is not stored changes nothing.
     */
    method DeleteNote(id: string)
      modifies this`notes
      ensures notes == Filter(old(notes), NoteLacksId(id))
      ensures IsSubsequence(notes, old(notes))
      ensures forall n :: n in notes <==> n in old(notes) && n.id != id
      ensures (forall i :: 0 <= i < |old(notes)| ==> old(notes)[i].id != id) ==> notes == old(notes)
      ensures DistinctBy(old(notes), NoteId) ==> DistinctBy(notes, NoteId)
    {
      FilterIsSubsequence(notes, NoteLacksId(id));
      if forall i :: 0 <= i < |notes| ==> notes[i].id != id {
        FilterKeepsAll(notes, NoteLacksId(id));
      }
      if DistinctBy(notes, NoteId) {
        FilterKeepsDistinct(notes, NoteLacksId(id), NoteId);
      }
      notes := Filter(notes, NoteLacksId(id));
    }
  }
}
