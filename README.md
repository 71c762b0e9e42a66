# ToDoist2Miro sync script, modelled in Dafny

The script `skript.py` copies the tasks of one Todoist project onto a Miro
board. A local SQLite file caches two tables, `tasks` and `collaborators`,
keyed by the Todoist ids. A `sync_status` column records which tasks already
have a board card. One run of `main` does four things in order:

1. It inserts the project's collaborators that are not cached yet. Each new
   row gets a first name and a colour derived from the full name.
2. It makes sure the two assignee columns exist, then fills every task's
   `assignee_firstname` from the collaborator table.
3. It inserts the tasks that are not cached yet. Each new row is unsynced and
   carries its assignee's colour.
4. It creates one card per unsynced task on a 15-row grid. After each card is
   created it marks that task as synced.

The model keeps that structure:

- `Names` (names.dfy): `capitalize()`, `strip()`, `split(sep)[0]` and
  `extract_first_name`, on ASCII case.
- `Colors` (colors.dfy): `generate_hex_color`. The MD5 digest is a parameter,
  so every property holds for any digest function.
- `KeyedTable` (keyed_table.dfy): a batch of `INSERT OR IGNORE`s into a table
  keyed by id, with the new-entry count. Both tables use it.
- `Records` (records.dfy): the Todoist input, the rows of both tables, the row
  built for a new entry, the assignee colour lookup, the first-name join and
  the sync-status update.
- `Layout` (layout.dfy): the grid position and the card-creation payload.
- `Store` (store.dfy): class `Database`, the cache file. Its fields `tasks`,
  `collaborators` and `schema` are updated in place by one method per
  function of the script, `Run` is `main` and `IngestAndSync` is the
  `if tasks:` block of `main`. Each method is proved against
  the pure definitions above. The lemmas after the class state what those
  definitions guarantee.

## Model

| member | source | states |
|---|---|---|
| Names.Capitalize | skript.py:146 | `capitalize()`: the length is kept and every character is the same letter up to case; the first is not lower case and the rest are not upper case; whitespace stays where it is |
| Names.CapitalizeIdempotent | skript.py:146 | capitalizing twice gives the same result as capitalizing once |
| Names.Strip | skript.py:146-147 | `strip()`: the result is the infix after the leading whitespace; it is empty exactly when the input is all whitespace, and otherwise neither starts nor ends with whitespace |
| Names.StripDropsOnlySpace | skript.py:146-147 | the part of the input after the stripped result is all whitespace; so, for a non-empty result, the input is the leading whitespace run, the result and the trailing whitespace run |
| Names.StripUnchanged | skript.py:146-147 | a string with no whitespace at either end is its own strip |
| Names.StripIdempotent | skript.py:146-147 | stripping twice gives the same result as stripping once |
| Names.StripKeeps | skript.py:146-147 | every character of the stripped string occurs in the input |
| Names.CapitalizeAllSpace | skript.py:146-147 | a capitalized string is all whitespace exactly when the input is, so `strip()` empties both or neither |
| Names.CapitalizeStripKeepsSeparator | skript.py:146-147 | a space or a dot survives `capitalize().strip()` only if the input contained it |
| Names.BeforeFirst | skript.py:146 | `split(sep)[0]`: the longest prefix without `sep`; it is shorter than the input exactly when `sep` occurs, and then `sep` follows it |
| Names.CapitalizeStrip | skript.py:146-147 | `capitalize().strip()`: empty exactly for all-whitespace input; no whitespace at either end; no upper-case letter after the first; contains a space or a dot only if the input does |
| Names.FirstSegment | skript.py:143-147 | the separator loop: the text before the first space if there is one; otherwise before the first dot if there is one; otherwise the whole name |
| Names.ExtractFirstName | skript.py:142-147 | the first name never contains a space, has no whitespace at either end, has no upper-case letter after the first, and contains a dot only when the full name contains a space |
| Names.BeforeFirstOfJoin | skript.py:146 | `split(sep)[0]` of a word, the separator and any rest is the word, when the word does not contain the separator |
| Names.CapitalizeStripFirstName | skript.py:146-147 | a capitalized word without whitespace or dots is unchanged by `capitalize().strip()` |
| Names.FirstNameOfLeadingSeparator | skript.py:143-146 | a name that starts with a space, or with a dot and has no space, gives the empty first name |
| Names.ExtractFirstNameRecovers | skript.py:142-147 | for an already capitalized word without whitespace or dots, extraction returns that word from "Word rest", from "Word.rest" when the rest has no space, and from "Word" alone |
| Colors.GenerateHexColor | skript.py:150-154 | the colour is seven characters: `#` then the first six hexadecimal digits of the name's digest |
| Colors.SameColorIffSameDigestPrefix | skript.py:150-154 | two names share a colour exactly when their digests share the first six digits, so equal names always share a colour |
| KeyedTable.InsertIfAbsent | skript.py:103-110 | one `INSERT OR IGNORE`: the id is present afterwards; existing rows are untouched; an absent id gets the given row |
| KeyedTable.InsertAll | skript.py:98-126 | a batch of `INSERT OR IGNORE`s, in batch order, with the record's id as key and its built row as value: the ids afterwards are the old ids plus the batch's ids, and no existing row changes |
| KeyedTable.CountAbsent | skript.py:97-99 | the returned count is at most the batch size, and it is zero exactly when every batch id is already in the snapshot |
| KeyedTable.InsertAllFirstWins | skript.py:103-110 | an id that was absent takes the row of the first batch record carrying it, even when later records repeat it |
| KeyedTable.InsertAllStep | skript.py:98-127 | one more loop iteration is one more `INSERT OR IGNORE` of that record, counted exactly when its id is not in the pre-loop snapshot |
| KeyedTable.InsertAllPresent | skript.py:98-99 | a batch whose ids are all present leaves the table unchanged |
| KeyedTable.InsertAllIdempotent | skript.py:94-99 | inserting the same batch again leaves the table unchanged, and the second call counts zero new entries |
| KeyedTable.InsertAllSize | skript.py:97-127 | when the batch ids are distinct, the table grows by exactly the returned count |
| Records.NewCollaboratorRow | skript.py:178-183 | a new collaborator row keeps name and email; its first name is `extract_first_name(name)` and its colour `generate_hex_color(name)`, a well-formed hex colour |
| Records.AssigneeHexColor | skript.py:157-168 | the task colour is the stored colour of the assignee's row whenever that row exists, even if that colour is null; otherwise it is the colour of "Unknown Assignee". It is null only for a row with a null colour, and it is a hex colour whenever all stored colours are |
| Records.NewTaskRow | skript.py:111-126 | a new task row: `sync_status` 0, owner `'owner'`, first name null, the given colour; every copied task field (content, project, creator, creation time, assignee, assigner, comment count, description, labels, order, priority, section, parent, URL) equals the task's; the due columns are the due parts and are null exactly without a due date; the duration columns are the amount and unit and are null exactly without a duration; completion is stored as 0 or 1 |
| Records.AssigneeFirstname | skript.py:215-219 | the sub-query: some first name only when the assignee id is a collaborator's, and then that collaborator's stored first name |
| Records.WithAssigneeFirstnames | skript.py:213-220 | the UPDATE: same ids; every row's first name comes from its assignee's collaborator; every other column is unchanged |
| Records.WithAssigneeFirstnamesIdempotent | skript.py:210-222 | running the join twice gives the same table as running it once |
| Records.SyncRowOf | skript.py:228 | the selected columns: id, content, description and colour of the row |
| Records.MarkSynced | skript.py:274 | rows named get status 1 and keep every other column; rows not named are unchanged; the set of ids is the same |
| Layout.CardPosition | skript.py:238-249 | the x position is a non-negative multiple of 310; the y position is a multiple of 110 between 0 and 14·110; the first fifteen cards share x = 0 |
| Layout.GridIndexInverts | skript.py:244-249 | column·15 + row recovers the card index from its position |
| Layout.CardPositionInjective | skript.py:244-249 | distinct indices give distinct positions |
| Layout.NextColumnSameRow | skript.py:244-249 | the card fifteen places later is in the same row, one column (310) to the right |
| Layout.SecondColumnStarts | skript.py:238-249 | card 15 (the sixteenth) is at (310, 0), and card 14 is at (0, 1540) |
| Layout.BuildPayload | skript.py:251-267 | the payload: title is the content, description is the description, theme is the assignee colour, position is the grid cell, geometry is 300 by 100 |
| Layout.PayloadsDistinct | skript.py:244-267 | two payloads of one pass are never equal |
| Store.Database.InitDb | skript.py:25-70 | a fresh cache has both tables empty and the columns `init_db` creates |
| Store.Database.AddColumnIfNotExists | skript.py:73-81 | the column set of an existing table gains the column, which is a no-op when it is already there; a missing table raises (`ok` false) and nothing changes; the rows are untouched |
| Store.Database.InsertCollaborators | skript.py:171-187 | the new collaborator table is the batch inserted into the old one, each new row built from its record's name, and the count is the number of records whose id was absent from the pre-loop snapshot; only the collaborator table may change |
| Store.Database.InsertTasks | skript.py:93-130 | the new task table is the batch inserted into the old one, each new row coloured from the current collaborators, and the count is the number of records absent from the snapshot; only the task table may change |
| Store.Database.UpdateAssigneeFirstname | skript.py:210-222 | the task table becomes the first-name join of its old contents with the collaborators |
| Store.Database.FetchTasksToSync | skript.py:225-231 | returns exactly the rows whose status is 0, each once, with their selected columns |
| Store.Database.SyncTasksToMiro | skript.py:233-276 | the selection is the old unsynced rows; card `i` is requested with payload `i`; the pass stops at the first call that raises; the table afterwards is the old one with exactly the rows whose call returned marked 1 |
| Store.Database.IngestAndSync | skript.py:301-304 | the `if tasks:` block: the count is that of the task insertion; the sync selection is taken from the table after the insertion; the card call returned for each of the first `created` rows and raised for the next one, if any; the table afterwards is that table with exactly those rows marked 1 |
| Store.Database.Run | skript.py:280-306 | collaborators are inserted only when fetched, and the reported count is then the number of fetched records absent before; the two columns are added; existing tasks get the first names of the updated collaborators; fetched tasks are inserted and counted the same way; the cards created are exactly the selected rows before the first raising call, and those rows are marked 1; tasks inserted in this run have a null first name; without fetched tasks nothing is inserted or synced |
| Store.AddColumnTwice | skript.py:293-294 | the two `add_column_if_not_exists` calls on `tasks` together add both assignee columns and change nothing else in the schema |
| Store.AfterIngest | skript.py:295-302 | the task table after the join and the insertion holds the old ids plus the batch ids |
| Store.SetSynced | skript.py:272-276 | one status update is marking the set holding that one id |
| Store.RunFirstNames | skript.py:293-302 | because the join runs before the task insertion, new tasks end the run without a first name and old tasks end it with their assignee's |
| Store.InsertCollaboratorsNewRow | skript.py:176-183 | an absent collaborator id gets the row built from its first occurrence, with that entry's derived first name and colour |
| Store.InsertTasksNewRow | skript.py:98-126 | an absent task id gets a row from its first occurrence: unsynced, owner `'owner'`, no first name, colour from the assignee lookup, null due and duration columns exactly when those are missing |
| Store.AbortLeavesRestUnsynced | skript.py:244-276 | after a pass that stopped after `k` returned calls, the first `k` selected rows have status 1 and every later one still has 0 |
| Store.NextSelectionIsRemainder | skript.py:225-276 | the next selection, with no inserts in between, is exactly the selected rows the stopped pass did not reach |

## Left out

- The SQLite connection, cursor and commit calls are not modelled. Each table is a map from id to row, and the schema is a map from table name to its set of column names. The column type passed to `add_column_if_not_exists` is not kept.
- `init_db` runs only when the file is missing. The model gives a fresh file as the constructor `InitDb`, and an existing file as any `Database` object.
- The Todoist client (skript.py:190-207) is not modelled. A fetch is a parameter of type `Option<seq<...>>`. `None` is a caught error, and `None` and `[]` both skip the step, as `if collaborators:` and `if tasks:` do.
- The Miro client (skript.py:234, 269) is not modelled. `create_card_item` is the parameter `createReturns`: true when the call returns, false when it raises. The access token, the board id and the returned item are not modelled; the script ignores the returned item.
- Store.Database.Run: an exception from `create_card_item` ends `main`. The model instead returns from `Run` with the same state, because nothing in `main` runs after the sync pass.
- Store.Database.AddColumnIfNotExists: the SQLite error raised when altering a missing table is reported as `ok == false` instead of an exception. `Run` only calls it on the `tasks` table, which always exists.
- The order in which `fetch_tasks_to_sync` returns rows is not specified, because the query has no `ORDER BY`. The model picks the rows in an arbitrary order, so the grid follows that order.
- MD5 is not modelled. The digest is a parameter that returns 32 lower-case hexadecimal characters.
- `json.dumps(task.labels)` is not modelled. The row stores the label list itself.
- Loading the environment with dotenv and the `print` logging are not modelled.
- Case mapping and whitespace are ASCII only. `capitalize()` changes only ASCII letters, and `strip()` removes the ASCII characters for which Python's `isspace()` is true. Other Unicode characters pass through unchanged.
- Todoist fields that the client may return as `None` are modelled as plain strings when the script stores them without a check, for example content, creator and URL.
