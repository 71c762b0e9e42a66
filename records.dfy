/**
 * What the sync script reads from Todoist, the rows of its two local tables
 * (`tasks` and `collaborators`), and the table-wide transformations it
 * performs: building a row for a new entry, looking up an assignee's colour,
 * the first-name join, and marking rows as synced.
 */
module Records {
  import opened Names
  import opened Colors

  datatype Option<T> = None | Some(value: T)

  // ---------------------------------------------------------------------
  // Todoist input
  // ---------------------------------------------------------------------

  /** A task's due information as the Todoist client returns it. */
  datatype Due = Due(date: string, datetime: Option<string>, text: string, timezone: Option<string>)

  datatype Duration = Duration(amount: int, unit: string)

  /** A Todoist task. */
  datatype Task = Task(
    id: string, content: string, projectId: string, due: Option<Due>,
    creatorId: string, createdAt: string, assigneeId: Option<string>,
    assignerId: Option<string>, commentCount: int, isCompleted: bool,
    description: string, labels: seq<string>, order: int, priority: int,
    sectionId: Option<string>, parentId: Option<string>, url: string,
    duration: Option<Duration>)

  /** A Todoist project collaborator. */
  datatype Collaborator = Collaborator(id: string, name: string, email: string)

  // ---------------------------------------------------------------------
  // Local rows (the id is the map key)
  // ---------------------------------------------------------------------

  /** A row of the `tasks` table. Nullable columns are `Option`s; `labels`
      holds the label list that the table stores as JSON text. */
  datatype TaskRow = TaskRow(
    content: string, projectId: string,
    dueDate: Option<string>, dueDatetime: Option<string>,
    dueString: Option<string>, dueTimezone: Option<string>,
    creatorId: string, createdAt: string, assigneeId: Option<string>,
    assignerId: Option<string>, commentCount: int, isCompleted: int,
    description: string, labels: seq<string>, order: int, priority: int,
    sectionId: Option<string>, parentId: Option<string>, url: string,
    durationAmount: Option<int>, durationUnit: Option<string>,
    owner: string, syncStatus: int,
    assigneeFirstname: Option<string>, assigneeHexColor: Option<string>)

  /** A row of the `collaborators` table. */
  datatype CollaboratorRow = CollaboratorRow(
    name: string, email: string, firstName: Option<string>, hexColor: Option<string>)

  type TaskTable = map<string, TaskRow>
  type CollaboratorTable = map<string, CollaboratorRow>

  const NotSynced: int := 0
  const Synced: int := 1

  // ---------------------------------------------------------------------
  // Collaborator ingestion
  // ---------------------------------------------------------------------

  /** The row stored for a collaborator seen for the first time. */
  function NewCollaboratorRow(c: Collaborator, md5: Md5): (row: CollaboratorRow)
    ensures row.name == c.name && row.email == c.email
    ensures row.firstName == Some(ExtractFirstName(c.name))
    ensures row.hexColor.Some? && IsHexColor(row.hexColor.value)
    ensures row.hexColor == Some(GenerateHexColor(md5, c.name))
  {
    CollaboratorRow(c.name, c.email, Some(ExtractFirstName(c.name)), Some(GenerateHexColor(md5, c.name)))
  }

  /** The primary key of a collaborator row. */
  function CollaboratorId(c: Collaborator): string { c.id }

  /** The row built for each fetched collaborator, as a function to hand to a
      batch insert. */
  function CollaboratorRowOf(md5: Md5): Collaborator -> CollaboratorRow {
    (c: Collaborator) => NewCollaboratorRow(c, md5)
  }

  // ---------------------------------------------------------------------
  // Task ingestion
  // ---------------------------------------------------------------------

  /** Every non-null colour stored in the collaborator table is a hex colour. */
  predicate StoredColorsWellFormed(collaborators: CollaboratorTable) {
    forall id :: id in collaborators && collaborators[id].hexColor.Some? ==>
      IsHexColor(collaborators[id].hexColor.value)
  }

  /** The colour stored with a new task: the stored colour of the assignee's
      collaborator row whenever that row exists, even when the colour itself is
      null; otherwise the colour of the fallback name. A null assignee never
      matches a row. */
  function AssigneeHexColor(collaborators: CollaboratorTable, assigneeId: Option<string>, md5: Md5): (c: Option<string>)
    ensures assigneeId.Some? && assigneeId.value in collaborators ==>
              c == collaborators[assigneeId.value].hexColor
    ensures !(assigneeId.Some? && assigneeId.value in collaborators) ==>
              c == Some(GenerateHexColor(md5, UnknownAssignee))
    ensures c.None? <==>
              assigneeId.Some? && assigneeId.value in collaborators &&
              collaborators[assigneeId.value].hexColor.None?
    ensures StoredColorsWellFormed(collaborators) && c.Some? ==> IsHexColor(c.value)
  {
    match assigneeId
    case Some(a) => if a in collaborators then collaborators[a].hexColor
                    else Some(GenerateHexColor(md5, UnknownAssignee))
    case None => Some(GenerateHexColor(md5, UnknownAssignee))
  }

  /** The row stored for a task seen for the first time: not yet synced,
      owned by 'owner', first name still unknown, due and duration columns
      null exactly when the task has no due date or no duration. */
  function NewTaskRow(t: Task, hexColor: Option<string>): (row: TaskRow)
    ensures row.syncStatus == NotSynced && row.owner == "owner"
    ensures row.assigneeFirstname == None && row.assigneeHexColor == hexColor
    ensures row.dueDate.None? <==> t.due.None?
    ensures row.dueString.None? <==> t.due.None?
    ensures t.due.None? ==> row.dueDatetime.None? && row.dueTimezone.None?
    ensures t.due.Some? ==>
              && row.dueDate == Some(t.due.value.date)
              && row.dueDatetime == t.due.value.datetime
              && row.dueString == Some(t.due.value.text)
              && row.dueTimezone == t.due.value.timezone
    ensures row.durationAmount.None? <==> t.duration.None?
    ensures row.durationUnit.None? <==> t.duration.None?
    ensures t.duration.Some? ==>
              row.durationAmount == Some(t.duration.value.amount) &&
              row.durationUnit == Some(t.duration.value.unit)
    ensures row.projectId == t.projectId && row.creatorId == t.creatorId &&
            row.createdAt == t.createdAt && row.assignerId == t.assignerId &&
            row.commentCount == t.commentCount && row.labels == t.labels &&
            row.order == t.order && row.priority == t.priority &&
            row.sectionId == t.sectionId && row.parentId == t.parentId &&
            row.url == t.url
    ensures row.isCompleted == (if t.isCompleted then 1 else 0)
    ensures row.content == t.content && row.description == t.description &&
            row.assigneeId == t.assigneeId
  {
    TaskRow(
      t.content, t.projectId,
      if t.due.Some? then Some(t.due.value.date) else None,
      if t.due.Some? then t.due.value.datetime else None,
      if t.due.Some? then Some(t.due.value.text) else None,
      if t.due.Some? then t.due.value.timezone else None,
      t.creatorId, t.createdAt, t.assigneeId, t.assignerId, t.commentCount,
      if t.isCompleted then 1 else 0,
      t.description, t.labels, t.order, t.priority, t.sectionId, t.parentId, t.url,
      if t.duration.Some? then Some(t.duration.value.amount) else None,
      if t.duration.Some? then Some(t.duration.value.unit) else None,
      "owner", NotSynced, None,
      hexColor)
  }

  /** The primary key of a task row. */
  function TaskId(t: Task): string { t.id }

  /** The row built for each fetched task, coloured by the collaborator table
      as it stands, as a function to hand to a batch insert. */
  function TaskRowOf(collaborators: CollaboratorTable, md5: Md5): Task -> TaskRow {
    (t: Task) => NewTaskRow(t, AssigneeHexColor(collaborators, t.assigneeId, md5))
  }

  // ---------------------------------------------------------------------
  // The first-name join
  // ---------------------------------------------------------------------

  /** The correlated sub-query: the first name of the collaborator whose id is
      the assignee id, or null when there is none (a null id matches none). */
  function AssigneeFirstname(collaborators: CollaboratorTable, assigneeId: Option<string>): (n: Option<string>)
    ensures n.Some? ==> assigneeId.Some? && assigneeId.value in collaborators
    ensures assigneeId.Some? && assigneeId.value in collaborators ==>
              n == collaborators[assigneeId.value].firstName
  {
    if assigneeId.Some? && assigneeId.value in collaborators
    then collaborators[assigneeId.value].firstName
    else None
  }

  /** `UPDATE tasks SET assignee_firstname = (sub-query)`: every row gets its
      assignee's first name; nothing else changes. */
  function WithAssigneeFirstnames(tasks: TaskTable, collaborators: CollaboratorTable): (r: TaskTable)
    ensures r.Keys == tasks.Keys
    ensures forall id :: id in tasks ==>
              r[id].assigneeFirstname == AssigneeFirstname(collaborators, tasks[id].assigneeId)
    ensures forall id :: id in tasks ==>
              r[id].(assigneeFirstname := tasks[id].assigneeFirstname) == tasks[id]
  {
    map id | id in tasks :: tasks[id].(assigneeFirstname := AssigneeFirstname(collaborators, tasks[id].assigneeId))
  }

  /** The join is idempotent. */
  lemma WithAssigneeFirstnamesIdempotent(tasks: TaskTable, collaborators: CollaboratorTable)
    ensures WithAssigneeFirstnames(WithAssigneeFirstnames(tasks, collaborators), collaborators)
         == WithAssigneeFirstnames(tasks, collaborators)
  {
    var once := WithAssigneeFirstnames(tasks, collaborators);
    var twice := WithAssigneeFirstnames(once, collaborators);
    forall id | id in tasks ensures twice[id] == once[id] {
      assert once[id].assigneeId == tasks[id].assigneeId;
    }
  }

  // ---------------------------------------------------------------------
  // Sync status
  // ---------------------------------------------------------------------

  /** The columns the sync pass reads from an unsynced row. */
  datatype SyncRow = SyncRow(id: string, content: string, description: string, hexColor: Option<string>)

  function SyncRowOf(id: string, row: TaskRow): (s: SyncRow)
    ensures s.id == id && s.content == row.content && s.description == row.description
    ensures s.hexColor == row.assigneeHexColor
  {
    SyncRow(id, row.content, row.description, row.assigneeHexColor)
  }

  function Ids(rows: seq<SyncRow>): (ids: set<string>)
    ensures forall i :: 0 <= i < |rows| ==> rows[i].id in ids
  {
    set i | 0 <= i < |rows| :: rows[i].id
  }

  /** `SELECT ... FROM tasks WHERE sync_status = 0`, in some order: exactly the
      unsynced rows, each once. */
  ghost predicate IsSyncSelection(tasks: TaskTable, rows: seq<SyncRow>) {
    && (forall i :: 0 <= i < |rows| ==>
          rows[i].id in tasks && tasks[rows[i].id].syncStatus == NotSynced &&
          rows[i] == SyncRowOf(rows[i].id, tasks[rows[i].id]))
    && (forall id :: id in tasks && tasks[id].syncStatus == NotSynced ==> id in Ids(rows))
    && (forall i, j :: 0 <= i < j < |rows| ==> rows[i].id != rows[j].id)
  }

  /** `UPDATE tasks SET sync_status = 1 WHERE id = ?` for every id in `ids`. */
  function MarkSynced(tasks: TaskTable, ids: set<string>): (r: TaskTable)
    ensures r.Keys == tasks.Keys
    ensures forall id :: id in tasks && id !in ids ==> r[id] == tasks[id]
    ensures forall id :: id in tasks && id in ids ==>
              r[id].syncStatus == Synced && r[id].(syncStatus := tasks[id].syncStatus) == tasks[id]
  {
    map id | id in tasks :: if id in ids then tasks[id].(syncStatus := Synced) else tasks[id]
  }
}
