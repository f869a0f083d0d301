# Interactive schema editor: edit model, change classifier and migration planner

This project models, in Dafny, the logic of the interactive schema editor of
the Xata command-line tool (`xata schema edit`, `cli/src/commands/schema/edit.ts`).
The editor fetches a branch's schema. The user then renames, adds and deletes
tables and columns locally. From those edits the editor computes an overview
of the pending changes and an ordered list of remote calls that migrates the
branch. Prompts and HTTP calls are stripped away. What remains is pure:

- `Schema` (`schema.dfy`): tables and columns with the editor's bookkeeping.
  `added` marks an entity not yet on the remote side. `deleted` marks one for
  removal. `initialName` holds the remote name while a rename is pending.
  The module also holds the six edit operations: rename, add and delete-toggle
  for tables and for columns.
- `Differ` (`differ.dfy`): link lookup by remote name (`initialName || name`),
  the implicit drop of columns whose linked table is deleted, the
  added/deleted/modified classification, the overview counts, and the
  overview line that enables the "Run migration" entry.
- `Planner` (`planner.dfy`): the two loops of `migrate` as a pure function
  `Plan(tables): seq<Op>`. Phase one creates tables, renames tables, drops
  columns and renames columns. Phase two drops tables and adds columns. Each
  issued call is a `Step` tagged with the loop position that issued it
  (phase, table index, and column index, with -1 for the table's own call).
- `Parsers` (`parsers.dfy`): `parseBoolean`, `validateOptionalBoolean` and
  `parseDefaultValue`.
- `Forms` (`forms.dfy`): the field validators of the table and column forms,
  and the column definition a submitted column form saves.
- `Decimal` (`decimal.dfy`) and `Base` (`base.dfy`): decimal numerals, which
  stand in for `String(n)` and `+text` on integers, plus `Option`, `Check` and
  `Join`.

Some behaviours of the code that a reader might not expect, all modelled as written:

- `parseDefaultValue` never refuses a `bool` default. For an unrecognised
  word it returns the string `"null"` (edit.ts:734), and a not-null column
  saves that string as its default.
- For empty text the `bool` coercion returns the string `"undefined"`
  (edit.ts:734). That only lets the default-value validator accept an empty
  default (edit.ts:452-455). An empty default text is never saved, because
  the save checks `values.defaultValue !== ''` first (edit.ts:477).
- The link cascade looks a table up by `initialName || name` and takes the
  first match (edit.ts:333).

Two behaviours of the code are modelled as written, not corrected:

- An added column whose linked table is deleted gets both a `DeleteColumn` in
  phase one and an `AddTableColumn` in phase two.
- An added column of a deleted table counts as "added" in the overview, but
  the plan adds nothing for it.

## Model

| member | source | states |
|---|---|---|
| `Schema.TrackRename` | cli/src/commands/schema/edit.ts:481-488 | After a name edit, the pending rename never equals the new name. An added entity never gets one. The first real rename of a remote entity records its old name. A recorded name is never overwritten, and is cleared only by renaming back to it. |
| `Schema.TrackRenameKeepsRemote` | cli/src/commands/schema/edit.ts:541-547 | One rename of a remote entity keeps `initialName` or else `name` equal to the entity's remote name. |
| `Schema.RenameChainKeepsRemote` | cli/src/commands/schema/edit.ts:540-547 | After any sequence of renames, a remote entity's bookkeeping still names its remote name. Renaming it back to where it started leaves no rename pending. |
| `Schema.AddedNeverTracked` | cli/src/commands/schema/edit.ts:541-543 | However often an added entity is renamed, it never acquires an `initialName`. |
| `Schema.RenameTable` | cli/src/commands/schema/edit.ts:540-547 | Only table `i` changes: it takes the new name, and its columns and flags are kept. The remote name it tracks is preserved, and the bookkeeping invariants are kept. |
| `Schema.AddTable` | cli/src/commands/schema/edit.ts:549-553 | The new table is appended after the unchanged tables. It is added, empty, not deleted, and has no pending rename. The invariants are kept. |
| `Schema.ToggleTableDeletion` | cli/src/commands/schema/edit.ts:566-578 | An added table is removed, and the rest keep their order. A remote table only has its `deleted` flag flipped, and nothing else changes. The invariants are kept. |
| `Schema.ToggleTableTwice` | cli/src/commands/schema/edit.ts:571-573 | Deleting a remote table twice restores the schema exactly. |
| `Schema.AddThenDeleteTable` | cli/src/commands/schema/edit.ts:567-570 | Deleting a table just added gives back the schema from before the add. |
| `Schema.EditColumn` | cli/src/commands/schema/edit.ts:481-488 | Only column `j` of table `i` changes: its definition is replaced, its flags are kept, its pending rename follows the rename-tracking rule, and the remote name it tracks is preserved. The invariants are kept. |
| `Schema.AddColumn` | cli/src/commands/schema/edit.ts:489-496 | The new column is appended to table `i`. It is added, not deleted, and has no pending rename. All else is unchanged and the invariants are kept. |
| `Schema.ToggleColumnDeletion` | cli/src/commands/schema/edit.ts:580-593 | An added column is removed, and the rest keep their order. A remote column only has its `deleted` flag flipped. Other tables are untouched and the invariants are kept. |
| `Schema.Apply` | cli/src/commands/schema/edit.ts:481-593 | One edit keeps the bookkeeping invariants. An edit addressing a missing table or column changes nothing. |
| `Schema.EditsKeepSchemaOk` | cli/src/commands/schema/edit.ts:481-593 | Any sequence of renames, additions and delete-toggles keeps the bookkeeping invariants. |
| `Schema.SessionFromFetchedIsOk` | cli/src/commands/schema/edit.ts:171-175 | Every schema reachable by edits from the fetched one, which has no bookkeeping, satisfies the invariants. |
| `Schema.ToggleColumnTwice` | cli/src/commands/schema/edit.ts:586-589 | Deleting a remote column twice restores the schema exactly. |
| `Schema.AddThenDeleteColumn` | cli/src/commands/schema/edit.ts:581-585 | Deleting a column just added gives back the schema from before the add. |
| `Differ.FindByRemoteName` | cli/src/commands/schema/edit.ts:333 | `find` semantics: the result is the first table whose remote name (`initialName \|\| name`) is the target. No result means no table has that name. |
| `Differ.LinkedTable` | cli/src/commands/schema/edit.ts:333 | A column's linked table is the first table whose remote name is the link. There is none when the column has no link or no table has that remote name. |
| `Differ.CascadeThroughLink` | cli/src/commands/schema/edit.ts:333-335 | A column without its own delete mark is dropped exactly when it links to a deleted table that is the first one known remotely under the linked name. |
| `Differ.TableStatus` | cli/src/commands/schema/edit.ts:328-330 | A table is in exactly one class, by priority: added if added, else deleted if deleted, else modified if a rename is pending, else unchanged. |
| `Differ.ColumnStatus` | cli/src/commands/schema/edit.ts:332-336 | A column is added when it or its table is added. Otherwise it is deleted when its table is deleted or it is dropped. Otherwise it is modified when a rename is pending, else unchanged. |
| `Differ.ColumnsTallyCounts` | cli/src/commands/schema/edit.ts:332-336 | The column loop adds to each count exactly the number of the table's columns of that status. |
| `Differ.SummarizeCounts` | cli/src/commands/schema/edit.ts:327-338 | The table loop adds to each table count the number of tables of that status. It adds to each column count the number of columns of that status. |
| `Differ.GetOverview` | cli/src/commands/schema/edit.ts:322-338 | Each of the six counts is exactly the number of tables, or of columns, classified with that status. |
| `Differ.SummarizeFacts` | cli/src/commands/schema/edit.ts:327-338 | The counting loop only increases counts. Table counts grow by at most the number of tables, and column counts by at most the number of columns. Nothing is counted exactly when every entity is unchanged. |
| `Differ.OverviewFacts` | cli/src/commands/schema/edit.ts:322-338 | Each entity is counted in at most one class: table counts total at most the number of tables, and column counts at most the number of columns. All six counts are zero exactly when every table and column is classified unchanged. |
| `Differ.OverviewMessage` | cli/src/commands/schema/edit.ts:340-357 | The overview line is empty exactly when all six counts are zero. |
| `Differ.MigrateDisabledIffUnchanged` | cli/src/commands/schema/edit.ts:225-230 | "Run migration" is disabled exactly when no table and no column is classified as changed. |
| `Planner.Emit` | cli/src/commands/schema/edit.ts:630-702 | A loop position issues only operations of its own phase. A table's own position issues only a create, rename or drop of a table. A column's position issues an operation on its own table. No column of a deleted table issues anything in phase two. |
| `Planner.Plan` | cli/src/commands/schema/edit.ts:630-702 | Every operation of the plan is issued by some loop position. |
| `Planner.ShrinkColumns` | cli/src/commands/schema/edit.ts:647-671 | Every step of the phase-one column loop is exactly what the loop issues at its position, belongs to phase one and table `i`, and starts at column `j`. |
| `Planner.PhaseOne` | cli/src/commands/schema/edit.ts:630-672 | Every phase-one step is issued at a real position, is what that position issues, and concerns a table at or after `i`. |
| `Planner.AddColumns` | cli/src/commands/schema/edit.ts:682-701 | Every step of the phase-two column loop is exactly what the loop issues at its position, belongs to phase two and table `i`, and starts at column `j`. |
| `Planner.PhaseTwo` | cli/src/commands/schema/edit.ts:674-702 | Every phase-two step is issued at a real position, is what that position issues, and concerns a table at or after `i`. |
| `Planner.StepsOrdered` | cli/src/commands/schema/edit.ts:630-702 | The plan is strictly ordered by phase, then table order, then column order. A table's own create, rename or drop comes before its columns' calls. |
| `Planner.PlanPhasesSeparated` | cli/src/commands/schema/edit.ts:630-702 | Every create-table, rename-table, drop-column and rename-column call comes before every drop-table and add-column call. |
| `Planner.StepsComplete` | cli/src/commands/schema/edit.ts:630-702 | Every loop position that issues a call contributes its step to the plan. |
| `Planner.PlanMembership` | cli/src/commands/schema/edit.ts:630-702 | A call is in the plan exactly when some loop position issues it. |
| `Planner.CreateTablePlanned` | cli/src/commands/schema/edit.ts:632-634 | A table is created exactly when it is added. |
| `Planner.UpdateTablePlanned` | cli/src/commands/schema/edit.ts:635-645 | A rename from `a` to `b` is issued exactly for a remote table named `b` whose `initialName` is `a`. |
| `Planner.DeleteTablePlanned` | cli/src/commands/schema/edit.ts:675-680 | A table is dropped exactly when it is marked deleted. |
| `Planner.DeleteColumnPlanned` | cli/src/commands/schema/edit.ts:647-658 | A column is dropped exactly when it is marked deleted or its linked table is deleted. A deleted owning table alone does not drop it. |
| `Planner.UpdateColumnPlanned` | cli/src/commands/schema/edit.ts:659-670 | A column rename is issued exactly for a column that has a pending rename and is not dropped. |
| `Planner.AddTableColumnPlanned` | cli/src/commands/schema/edit.ts:675-701 | A column is added, with its full definition, exactly when it or its table is new and its table is not deleted. |
| `Planner.PlanEmptyIffMigrateDisabled` | cli/src/commands/schema/edit.ts:225-231 | The overview disables "Run migration" exactly when the plan would issue no call. |
| `Planner.RenameThenAddSession` | cli/src/commands/schema/edit.ts:630-702 | Renaming `users` to `people` and adding a column gives exactly a rename, then the add. |
| `Planner.CascadeSession` | cli/src/commands/schema/edit.ts:647-658 | Deleting `teams`, which `users.teamId` links to, gives exactly the column drop, then the table drop. |
| `Planner.NewTableSession` | cli/src/commands/schema/edit.ts:682-701 | A new table with two new columns gives the create, then both adds in declaration order. |
| `Decimal.NatToString` | cli/src/commands/schema/edit.ts:730 | The text of a natural number is non-empty and all digits. It starts with '0' only for zero, so it has no leading zeros. |
| `Decimal.NatToStringRoundTrip` | cli/src/commands/schema/edit.ts:730 | Reading back the digits of `n` gives `n`. |
| `Decimal.IntToStringRoundTrip` | cli/src/commands/schema/edit.ts:730 | The text of an integer is a decimal numeral, and it denotes that integer. |
| `Parsers.ParseBoolean` | cli/src/commands/schema/edit.ts:708-714 | Absent or empty text is unset. Text equal up to case to one of true/t/1/y/yes is true, and to one of false/f/0/n/no is false. Everything else is invalid. |
| `Parsers.ParseBooleanIgnoresCase` | cli/src/commands/schema/edit.ts:710 | The parse of a text equals the parse of its lower-cased form. |
| `Parsers.BoolTextRoundTrip` | cli/src/commands/schema/edit.ts:708-714 | `"true"` and `"false"` parse back to the boolean they print. |
| `Parsers.ValidateOptionalBoolean` | cli/src/commands/schema/edit.ts:716-722 | Refuses exactly the invalid parse. Absent or empty text and the ten words, in any case, are accepted. |
| `Parsers.IntDefault` | cli/src/commands/schema/edit.ts:730 | A default exists exactly for a decimal numeral whose value is a safe integer (\|n\| ≤ 2^53−1). The stored text is the shortest numeral of that value (no plus sign, no leading zero), as `String(num)` gives. |
| `Parsers.IntDefaultIsShortest` | cli/src/commands/schema/edit.ts:730 | Any shortest numeral with the value of the input is exactly the stored text, so the stored text is `String(num)`. |
| `Decimal.IntToString` | cli/src/commands/schema/edit.ts:730 | The text of an integer has no plus sign and no leading zero, and starts with a minus sign exactly for a negative integer. |
| `Decimal.ShortestUnique` | cli/src/commands/schema/edit.ts:730 | Two shortest numerals of the same value are the same text. |
| `Parsers.IntDefaultCanonical` | cli/src/commands/schema/edit.ts:730 | Numerals of the same value get the same stored text, and the stored text is its own default. |
| `Parsers.ParseDefaultValue` | cli/src/commands/schema/edit.ts:724-745 | `string` keeps its text. `email` and `link` have no default for empty text and keep any other text. `int` follows the safe-integer rule. `bool` always gives one of "true", "false", "undefined" or "null": "undefined" exactly for empty text, "true"/"false" exactly for the parsed words. `text`, `multiple` and unknown types never have a default. |
| `Parsers.DefaultIsStable` | cli/src/commands/schema/edit.ts:724-745 | For string, int, bool, email and link, coercing a stored non-empty default again gives it back. |
| `Parsers.IntDefaultExamples` | cli/src/commands/schema/edit.ts:730 | `"42"` is an int default, stored as `"42"`, and `"4.2"` is not an int default. |
| `Parsers.BoolDefaultExamples` | cli/src/commands/schema/edit.ts:734 | For bool, `""` gives "undefined", `"maybe"` gives "null" and `"YES"` gives "true". |
| `Forms.ParseType` | cli/src/commands/schema/edit.ts:36 | A type name denotes a column type exactly when it is one of the nine listed names, and that type's name is the text. |
| `Forms.TypeNameRoundTrip` | cli/src/commands/schema/edit.ts:36 | Every column type has a listed name, and that name denotes it. |
| `Forms.ValidateName` | cli/src/commands/schema/edit.ts:401-406 | A name is accepted exactly when it matches `^[a-zA-Z0-9-_~]+$`. |
| `Forms.ValidateType` | cli/src/commands/schema/edit.ts:411-416 | The type field is accepted exactly when it names one of the nine types. |
| `Forms.ValidateLink` | cli/src/commands/schema/edit.ts:421-430 | The link field is accepted exactly when it is filled in if and only if the type is `link`. |
| `Forms.ValidateDefault` | cli/src/commands/schema/edit.ts:451-458 | The default value is checked only when not-null parses as true and a type is given. It is refused exactly when it then does not coerce. |
| `Forms.Flag` | cli/src/commands/schema/edit.ts:475-476 | A unique or not-null flag is never stored as false. It is stored as true exactly when its text parses as true. |
| `Forms.SaveColumn` | cli/src/commands/schema/edit.ts:467-480 | The saved column agrees with the validators. Its name is an identifier and its type is the listed one. It has a link exactly when the type is `link`. Each flag is true exactly when its text parses as true, and absent otherwise. A non-empty default text stores its coercion for the type, and an empty one stores no default. A not-null column given a default text keeps a default. |
| `Forms.FormFor` | cli/src/commands/schema/edit.ts:388-396 | Each initial field reads back as the column's own value. The name and the link are its own, the type text names its type, and the default text is its default. The flag texts pass the boolean validator and read back as the flag when it is true, or as absent. |
| `Forms.BlankFormRefused` | cli/src/commands/schema/edit.ts:386-406 | The blank form of a new column cannot be submitted unchanged. |
| `Forms.ResaveUnchanged` | cli/src/commands/schema/edit.ts:386-396 | Reopening a column of the shape the editor saves and submitting the form unchanged gives back the same definition. |
| `Forms.SavedIsCanonical` | cli/src/commands/schema/edit.ts:471-477 | Whatever a submitted form saves has that shape, provided the float and date conversions are stable. |
| `Forms.SaveIdempotent` | cli/src/commands/schema/edit.ts:467-480 | Reopening a saved column, its unchanged form is accepted and saves the same definition again, provided the float and date conversions are stable. |
| `Forms.SubmitColumnForm` | cli/src/commands/schema/edit.ts:481-496 | Editing column `j` replaces its definition with the saved one and keeps its flags. Its pending rename follows the rename-tracking rule. Adding appends a new added column after the unchanged columns. No other column or table changes, nor table `i`'s own fields, and the bookkeeping invariants are kept. |

## Left out

- The prompt UI is not modelled: the `Select`/`Snippet`/`Confirm` prompts, keypress handling, choice and index bookkeeping, chalk colouring, and `clear`. The overview line is modelled without its colour codes.
- `getMessageForTable` and `getMessageForColumn` are display only. They check "deleted" before "added", the reverse of the overview's order.
- The UI also guards some edits, and the edit functions here do not repeat those guards. The delete key is ignored on columns of a deleted table, and "Add a column" is disabled for a deleted table.
- Remote execution is left out: the client, the six remote calls, `getBranchDetails`, the confirmation prompt, failures and partial application, and `Codegen.runIfConfigured`. The model stops at the plan.
- The source-editing mode is left out (editor lookup, temporary files, `parseSchemaFile`, deployment).
- The `description` fields of both forms are left out, because the column form never saves one and the table description is never sent.
- Tables and columns are identified by their index rather than by object reference.
- `added` is modelled as a boolean. The table type declares it a string, but the code only ever assigns `true`.
- `initialName` is treated as present whenever it is set. JavaScript would treat an empty `initialName` as absent. This can only arise when an entity with an empty name is renamed, and the identifier rule refuses empty names.
- Lower-casing is modelled for ASCII letters only. For membership in the ten ASCII words this gives the same result as `toLowerCase`.
- Parsers.IntDefault: accepts only optionally signed decimal numerals. The code also accepts other JavaScript numeric syntax, such as surrounding whitespace, hexadecimal, exponents and `5.0`.
- Parsers.ParseDefaultValue: the `float` and `datetime` branches use the conversions of the `Host` parameter, which stand for `String(+v)` and `Date#toISOString`. The contract states nothing about those two branches beyond that.
- Forms.SavedIsCanonical: assumes the host's float and date conversions are stable on their own output, which the model cannot check.
- Forms.SaveIdempotent: rests on the same assumption about the host's float and date conversions.
