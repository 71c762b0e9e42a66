/**
 * The local cache file and the operations the sync script runs against it.
 * The file is an object whose two tables and schema are updated in place;
 * each method below is one function of the script, proved against the
 * table transformations of `Records` and `KeyedTable`.
 */
module Store {
  import opened Colors
  import opened KeyedTable
  import opened Records
  import opened Layout

  /** The columns `init_db` creates. */
  const TaskColumns: set<string> := {
    "id", "content", "project_id", "due_date", "due_datetime", "due_string",
    "due_timezone", "creator_id", "created_at", "assignee_id", "assigner_id",
    "comment_count", "is_completed", "description", "labels", "order",
    "priority", "section_id", "parent_id", "url", "duration_amount",
    "duration_unit", "owner", "sync_status", "assignee_firstname",
    "assignee_hex_color"}
  const CollaboratorColumns: set<string> := {"id", "name", "email", "first_name", "hex_color"}

  /** Whether a fetch produced something to work on: Python treats both
      `None` and an empty list as false. */
  predicate Fetched<T>(result: Option<seq<T>>) {
    result.Some? && result.value != []
  }

  /** What one run reports: the two insert counts (absent when the step was
      skipped) and how far the sync pass got. */
  datatype RunReport = RunReport(
    newCollaborators: Option<nat>, newTasks: Option<nat>,
    selected: seq<SyncRow>, cardsCreated: nat)

  class Database {
    var tasks: TaskTable
    var collaborators: CollaboratorTable
    /** Table name to column names. */
    var schema: map<string, set<string>>

    ghost predicate Valid()
      reads this
    {
      "tasks" in schema && "collaborators" in schema
    }

    /** `init_db` on a fresh file: both tables, empty. */
    constructor InitDb()
      ensures Valid()
      ensures tasks == map[] && collaborators == map[]
      ensures schema == map["tasks" := TaskColumns, "collaborators" := CollaboratorColumns]
    {
      tasks := map[];
      collaborators := map[];
      schema := map["tasks" := TaskColumns, "collaborators" := CollaboratorColumns];
    }

    /** Adds a column unless the table already has it. Altering a table that
        does not exist raises, reported here as `ok == false`. */
    method AddColumnIfNotExists(table: string, column: string) returns (ok: bool)
      modifies this`schema
      ensures ok == (table in old(schema))
      ensures ok ==> schema == old(schema)[table := old(schema)[table] + {column}]
      ensures !ok ==> schema == old(schema)
    {
      var columns := if table in schema then schema[table] else {};
      if column !in columns {
        if table !in schema {
          return false;
        }
        schema := schema[table := schema[table] + {column}];
      } else {
        assert schema[table] + {column} == schema[table];
        assert schema[table := schema[table] + {column}] == schema;
      }
      return true;
    }

    /** `insert_collaborators_into_db`: ids are checked against the table as
        it stood before the loop; each entry with an absent id is inserted
        with `INSERT OR IGNORE` and counted. */
    method InsertCollaborators(batch: seq<Collaborator>, md5: Md5) returns (count: nat)
      modifies this`collaborators
      ensures collaborators == InsertAll(old(collaborators), batch, CollaboratorId, CollaboratorRowOf(md5))
      ensures count == CountAbsent(old(collaborators).Keys, batch, CollaboratorId)
    {
      ghost var start := collaborators;
      var existing := collaborators.Keys;
      count := 0;
      for i := 0 to |batch|
        invariant existing <= collaborators.Keys
        invariant collaborators == InsertAll(start, batch[..i], CollaboratorId, CollaboratorRowOf(md5))
        invariant count == CountAbsent(existing, batch[..i], CollaboratorId)
      {
        var c := batch[i];
        InsertAllStep(start, existing, batch, CollaboratorId, CollaboratorRowOf(md5), i);
        if c.id !in existing {
          var row := NewCollaboratorRow(c, md5);
          if c.id !in collaborators {
            collaborators := collaborators[c.id := row];
          }
          count := count + 1;
        }
      }
      assert batch[..|batch|] == batch;
    }

    /** `insert_tasks_into_db`: as for collaborators, with each new row's
        colour looked up in the collaborator table. */
    method InsertTasks(batch: seq<Task>, md5: Md5) returns (count: nat)
      modifies this`tasks
      ensures tasks == InsertAll(old(tasks), batch, TaskId, TaskRowOf(collaborators, md5))
      ensures count == CountAbsent(old(tasks).Keys, batch, TaskId)
    {
      ghost var start := tasks;
      var existing := tasks.Keys;
      var lookup := collaborators;
      count := 0;
      for i := 0 to |batch|
        invariant existing <= tasks.Keys
        invariant tasks == InsertAll(start, batch[..i], TaskId, TaskRowOf(lookup, md5))
        invariant count == CountAbsent(existing, batch[..i], TaskId)
      {
        var t := batch[i];
        InsertAllStep(start, existing, batch, TaskId, TaskRowOf(lookup, md5), i);
        if t.id !in existing {
          var hexColor := AssigneeHexColor(lookup, t.assigneeId, md5);
          var row := NewTaskRow(t, hexColor);
          if t.id !in tasks {
            tasks := tasks[t.id := row];
          }
          count := count + 1;
        }
      }
      assert batch[..|batch|] == batch;
    }

    /** `update_assignee_firstname`: one UPDATE over the whole table. */
    method UpdateAssigneeFirstname()
      modifies this`tasks
      ensures tasks == WithAssigneeFirstnames(old(tasks), collaborators)
    {
      tasks := WithAssigneeFirstnames(tasks, collaborators);
    }

    /** `fetch_tasks_to_sync`: a scan of the table keeping the rows whose
        status is 0. The scan order is not specified. */
    method FetchTasksToSync() returns (rows: seq<SyncRow>)
      ensures IsSyncSelection(tasks, rows)
    {
      rows := [];
      var remaining := tasks.Keys;
      while remaining != {}
        invariant remaining <= tasks.Keys
        invariant forall i :: 0 <= i < |rows| ==>
                    rows[i].id in tasks && rows[i].id !in remaining &&
                    tasks[rows[i].id].syncStatus == NotSynced &&
                    rows[i] == SyncRowOf(rows[i].id, tasks[rows[i].id])
        invariant forall id :: id in tasks && id !in remaining && tasks[id].syncStatus == NotSynced ==>
                    id in Ids(rows)
        invariant forall i, j :: 0 <= i < j < |rows| ==> rows[i].id != rows[j].id
        decreases remaining
      {
        var id :| id in remaining;
        if tasks[id].syncStatus == NotSynced {
          IdsAppend(rows, SyncRowOf(id, tasks[id]));
          rows := rows + [SyncRowOf(id, tasks[id])];
        }
        remaining := remaining - {id};
      }
    }

    /** `sync_tasks_to_miro`: one card per unsynced row, in selection order,
        each row marked synced right after its creation call returns. The
        call is the parameter `createReturns`: false means it raised, which
        ends the pass (and the run) with the rest of the rows unsynced. */
    method SyncTasksToMiro(createReturns: CardPayload -> bool) returns (fetched: seq<SyncRow>, synced: nat)
      modifies this`tasks
      ensures IsSyncSelection(old(tasks), fetched)
      ensures synced <= |fetched|
      ensures forall i :: 0 <= i < synced ==> createReturns(BuildPayload(fetched[i], i))
      ensures synced < |fetched| ==> !createReturns(BuildPayload(fetched[synced], synced))
      ensures tasks == MarkSynced(old(tasks), Ids(fetched[..synced]))
    {
      fetched := FetchTasksToSync();
      ghost var selectedFrom := tasks;
      assert IsSyncSelection(old(tasks), fetched);
      synced := 0;
      assert fetched[..0] == [];
      while synced < |fetched| && createReturns(BuildPayload(fetched[synced], synced))
        invariant synced <= |fetched|
        invariant forall i :: 0 <= i < synced ==> createReturns(BuildPayload(fetched[i], i))
        invariant selectedFrom == old(tasks)
        invariant tasks == MarkSynced(selectedFrom, Ids(fetched[..synced]))
      {
        MarkSyncedStep(selectedFrom, fetched, synced);
        tasks := SetSynced(tasks, fetched[synced].id);
        synced := synced + 1;
      }
    }

    /** The `if tasks:` block of `main`: the fetched batch is inserted, then
        one sync pass runs over the resulting table. */
    method IngestAndSync(batch: seq<Task>, md5: Md5, createReturns: CardPayload -> bool)
      returns (count: nat, selected: seq<SyncRow>, created: nat)
      modifies this`tasks
      ensures count == CountAbsent(old(tasks).Keys, batch, TaskId)
      ensures IsSyncSelection(InsertAll(old(tasks), batch, TaskId, TaskRowOf(collaborators, md5)), selected)
      ensures created <= |selected|
      ensures forall i :: 0 <= i < created ==> createReturns(BuildPayload(selected[i], i))
      ensures created < |selected| ==> !createReturns(BuildPayload(selected[created], created))
      ensures tasks == MarkSynced(InsertAll(old(tasks), batch, TaskId, TaskRowOf(collaborators, md5)),
                                  Ids(selected[..created]))
    {
      count := InsertTasks(batch, md5);
      selected, created := SyncTasksToMiro(createReturns);
    }

    /** `main`: collaborators first, then the schema check and the first-name
        join, then tasks and the sync pass. A fetch that yields nothing skips
        its step; with no tasks fetched there is no sync pass either. */
    method Run(collaboratorFetch: Option<seq<Collaborator>>, taskFetch: Option<seq<Task>>,
               md5: Md5, createReturns: CardPayload -> bool) returns (report: RunReport)
      requires Valid()
      modifies this
      ensures Valid()
      ensures collaborators == if Fetched(collaboratorFetch)
                               then InsertAll(old(collaborators), collaboratorFetch.value, CollaboratorId, CollaboratorRowOf(md5))
                               else old(collaborators)
      ensures report.newCollaborators == if Fetched(collaboratorFetch)
                                         then Some(CountAbsent(old(collaborators).Keys, collaboratorFetch.value, CollaboratorId))
                                         else None
      ensures report.newTasks == if Fetched(taskFetch)
                                 then Some(CountAbsent(old(tasks).Keys, taskFetch.value, TaskId))
                                 else None
      ensures schema == old(schema)["tasks" := old(schema)["tasks"] + {"assignee_firstname", "assignee_hex_color"}]
      ensures !Fetched(taskFetch) ==>
                tasks == WithAssigneeFirstnames(old(tasks), collaborators) &&
                report.newTasks.None? && report.selected == [] && report.cardsCreated == 0
      ensures Fetched(taskFetch) ==>
                && IsSyncSelection(AfterIngest(old(tasks), collaborators, taskFetch.value, md5), report.selected)
                && report.cardsCreated <= |report.selected|
                && (forall i :: 0 <= i < report.cardsCreated ==>
                      createReturns(BuildPayload(report.selected[i], i)))
                && (report.cardsCreated < |report.selected| ==>
                      !createReturns(BuildPayload(report.selected[report.cardsCreated], report.cardsCreated)))
                && tasks == MarkSynced(AfterIngest(old(tasks), collaborators, taskFetch.value, md5),
                                       Ids(report.selected[..report.cardsCreated]))
      ensures forall id :: id in tasks && id !in old(tasks) ==> tasks[id].assigneeFirstname == None
      ensures forall id :: id in old(tasks) ==>
                id in tasks && tasks[id].assigneeFirstname == AssigneeFirstname(collaborators, old(tasks)[id].assigneeId)
    {
      ghost var tasks0 := tasks;
      var newCollaborators: Option<nat> := None;
      if Fetched(collaboratorFetch) {
        var n := InsertCollaborators(collaboratorFetch.value, md5);
        newCollaborators := Some(n);
      }
      assert newCollaborators == if Fetched(collaboratorFetch)
                                 then Some(CountAbsent(old(collaborators).Keys, collaboratorFetch.value, CollaboratorId))
                                 else None;
      ghost var collaborators1 := collaborators;
      assert collaborators1 == if Fetched(collaboratorFetch)
                               then InsertAll(old(collaborators), collaboratorFetch.value, CollaboratorId, CollaboratorRowOf(md5))
                               else old(collaborators);
      ghost var schema0 := schema;
      assert schema0 == old(schema);
      var ok1 := AddColumnIfNotExists("tasks", "assignee_firstname");
      ghost var schema1 := schema;
      var ok2 := AddColumnIfNotExists("tasks", "assignee_hex_color");
      AddColumnTwice(schema0, "tasks", "assignee_firstname", "assignee_hex_color");
      ghost var schema2 := schema;
      assert "tasks" in schema2 && "collaborators" in schema2;
      assert tasks == tasks0 && collaborators == collaborators1;
      UpdateAssigneeFirstname();
      assert schema == schema2 && collaborators == collaborators1;
      ghost var joined := tasks;
      assert joined == WithAssigneeFirstnames(tasks0, collaborators1);
      assert joined.Keys == tasks0.Keys;
      if Fetched(taskFetch) {
        var n, selected, created := IngestAndSync(taskFetch.value, md5, createReturns);
        assert schema == schema2 && collaborators == collaborators1;
        RunFirstNames(tasks0, collaborators1, taskFetch.value, md5, Ids(selected[..created]));
        report := RunReport(newCollaborators, Some(n), selected, created);
      } else {
        report := RunReport(newCollaborators, None, [], 0);
      }
    }
  }

  /** Adding two columns one after the other adds both. */
  lemma AddColumnTwice(schema: map<string, set<string>>, table: string, a: string, b: string)
    requires table in schema
    ensures var once := schema[table := schema[table] + {a}];
            once[table := once[table] + {b}] == schema[table := schema[table] + {a, b}]
  {
    var once := schema[table := schema[table] + {a}];
    assert once[table] + {b} == schema[table] + {a, b};
  }

  /** The task table after the join and the insertion of a fetched batch. */
  function AfterIngest(tasks: TaskTable, collaborators: CollaboratorTable, batch: seq<Task>, md5: Md5): (r: TaskTable)
    ensures r.Keys == tasks.Keys + Keys(batch, TaskId)
  {
    InsertAll(WithAssigneeFirstnames(tasks, collaborators), batch, TaskId, TaskRowOf(collaborators, md5))
  }

  /** Appending a row adds its id. */
  lemma IdsAppend(rows: seq<SyncRow>, row: SyncRow)
    ensures Ids(rows + [row]) == Ids(rows) + {row.id}
  {
    var rows' := rows + [row];
    assert rows'[|rows|] == row;
    forall x | x in Ids(rows') ensures x in Ids(rows) || x == row.id {
      var i :| 0 <= i < |rows'| && rows'[i].id == x;
      if i < |rows| { assert rows'[i] == rows[i]; }
    }
    forall x | x in Ids(rows) ensures x in Ids(rows') {
      var i :| 0 <= i < |rows| && rows[i].id == x;
      assert rows'[i] == rows[i];
    }
  }

  /** `UPDATE tasks SET sync_status = 1 WHERE id = ?` for one id. */
  function SetSynced(tasks: TaskTable, id: string): (r: TaskTable)
    ensures r == MarkSynced(tasks, {id})
  {
    if id in tasks then tasks[id := tasks[id].(syncStatus := Synced)] else tasks
  }

  /** One more returned call extends the marked prefix by one row. */
  lemma MarkSyncedStep(tasks: TaskTable, fetched: seq<SyncRow>, k: nat)
    requires k < |fetched|
    ensures MarkSynced(tasks, Ids(fetched[..k + 1])) == SetSynced(MarkSynced(tasks, Ids(fetched[..k])), fetched[k].id)
  {
    var ids := Ids(fetched[..k]);
    var ids' := Ids(fetched[..k + 1]);
    assert ids' == ids + {fetched[k].id} by {
      forall x | x in ids' ensures x in ids || x == fetched[k].id {
        var i :| 0 <= i < k + 1 && fetched[..k + 1][i].id == x;
        if i < k { assert fetched[..k][i] == fetched[..k + 1][i]; }
      }
      forall x | x in ids ensures x in ids' {
        var i :| 0 <= i < k && fetched[..k][i].id == x;
        assert fetched[..k + 1][i] == fetched[..k][i];
      }
    }
  }

  /** The run order leaves freshly inserted tasks without a first name, while
      every task that was already there carries its assignee's first name. */
  lemma RunFirstNames(tasks: TaskTable, collaborators: CollaboratorTable, batch: seq<Task>, md5: Md5, ids: set<string>)
    ensures var r := MarkSynced(AfterIngest(tasks, collaborators, batch, md5), ids);
            && (forall id :: id in r && id !in tasks ==> r[id].assigneeFirstname == None)
            && (forall id :: id in tasks ==>
                  (id in r && r[id].assigneeFirstname == AssigneeFirstname(collaborators, tasks[id].assigneeId)))
  {
    var joined := WithAssigneeFirstnames(tasks, collaborators);
    var inserted := InsertAll(joined, batch, TaskId, TaskRowOf(collaborators, md5));
    forall id | id in inserted && id !in tasks ensures inserted[id].assigneeFirstname == None {
      InsertAllFirstWins(joined, batch, TaskId, TaskRowOf(collaborators, md5), id, FirstIndex(batch, TaskId, id));
    }
  }

  /** A new collaborator id gets the row built from its first occurrence in
      the batch: first name and colour derived from that entry's name. */
  lemma InsertCollaboratorsNewRow(table: CollaboratorTable, batch: seq<Collaborator>, md5: Md5, j: nat)
    requires j < |batch| && batch[j].id !in table
    requires forall i :: 0 <= i < j ==> batch[i].id != batch[j].id
    ensures var r := InsertAll(table, batch, CollaboratorId, CollaboratorRowOf(md5));
            && batch[j].id in r
            && r[batch[j].id] == NewCollaboratorRow(batch[j], md5)
            && r[batch[j].id].firstName == Some(Names.ExtractFirstName(batch[j].name))
            && r[batch[j].id].hexColor == Some(GenerateHexColor(md5, batch[j].name))
  {
    InsertAllFirstWins(table, batch, CollaboratorId, CollaboratorRowOf(md5), batch[j].id, j);
  }

  /** A new task id gets the row built from its first occurrence in the
      batch: unsynced, owned by 'owner', no first name, and the colour of its
      assignee's collaborator row, or the fallback colour. */
  lemma InsertTasksNewRow(table: TaskTable, collaborators: CollaboratorTable, batch: seq<Task>, md5: Md5, j: nat)
    requires j < |batch| && batch[j].id !in table
    requires forall i :: 0 <= i < j ==> batch[i].id != batch[j].id
    ensures var r := InsertAll(table, batch, TaskId, TaskRowOf(collaborators, md5));
            && batch[j].id in r
            && r[batch[j].id].syncStatus == NotSynced
            && r[batch[j].id].owner == "owner"
            && r[batch[j].id].assigneeFirstname == None
            && r[batch[j].id].assigneeHexColor == AssigneeHexColor(collaborators, batch[j].assigneeId, md5)
            && (r[batch[j].id].dueDate.None? <==> batch[j].due.None?)
            && (r[batch[j].id].durationAmount.None? <==> batch[j].duration.None?)
  {
    InsertAllFirstWins(table, batch, TaskId, TaskRowOf(collaborators, md5), batch[j].id, j);
  }

  /** After a pass that stopped after `k` returned calls, the first `k`
      selected rows are synced and every later one is still unsynced. */
  lemma AbortLeavesRestUnsynced(tasks: TaskTable, fetched: seq<SyncRow>, k: nat)
    requires IsSyncSelection(tasks, fetched) && k <= |fetched|
    ensures var r := MarkSynced(tasks, Ids(fetched[..k]));
            && (forall i :: 0 <= i < k ==> r[fetched[i].id].syncStatus == Synced)
            && (forall j :: k <= j < |fetched| ==> r[fetched[j].id].syncStatus == NotSynced)
  {
    var ids := Ids(fetched[..k]);
    forall i | 0 <= i < k ensures fetched[i].id in ids {
      assert fetched[..k][i] == fetched[i];
    }
    forall j | k <= j < |fetched| ensures fetched[j].id !in ids {
      forall i | 0 <= i < k ensures fetched[..k][i].id != fetched[j].id {
        assert fetched[..k][i] == fetched[i];
      }
    }
  }

  /** The next selection after a pass that stopped after `k` returned calls
      (with no new rows in between) is exactly the rows the pass did not reach,
      so a later run resumes where this one stopped. */
  lemma NextSelectionIsRemainder(tasks: TaskTable, fetched: seq<SyncRow>, k: nat, next: seq<SyncRow>)
    requires IsSyncSelection(tasks, fetched) && k <= |fetched|
    requires IsSyncSelection(MarkSynced(tasks, Ids(fetched[..k])), next)
    ensures Ids(next) == Ids(fetched[k..])
  {
    AbortLeavesRestUnsynced(tasks, fetched, k);
    var r := MarkSynced(tasks, Ids(fetched[..k]));
    forall x | x in Ids(next) ensures x in Ids(fetched[k..]) {
      var i :| 0 <= i < |next| && next[i].id == x;
      assert r[x].syncStatus == NotSynced;
      assert x !in Ids(fetched[..k]);
      var j :| 0 <= j < |fetched| && fetched[j].id == x;
      assert j >= k;
      assert fetched[k..][j - k] == fetched[j];
    }
    forall x | x in Ids(fetched[k..]) ensures x in Ids(next) {
      var j :| 0 <= j < |fetched| - k && fetched[k..][j].id == x;
      assert fetched[k..][j] == fetched[k + j];
    }
  }
}
