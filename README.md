# dluhc-datasets: the upload and update core, in Dafny

dluhc-datasets is a small Flask application in which editors maintain
datasets of planning data. Each dataset has a list of fields and a
collection of records, and each record is identified by an entity number.
This project models the parts of the application that decide what happens
to data:

- **Bulk upload** (`upload_csv`). The view accepts only `.csv` files. It
  rejects a header that names fields outside the dataset. A first pass
  over the rows sets the entity counter to the first number that is at
  least `entity_minimum` and above every entity written in the file;
  records already stored are not consulted. The rows are grouped by
  `reference` in order of first appearance. Every `-date` cell is parsed.
  Each group is ordered by end date (`_order_records`). The first row of a
  group creates the record, with an entity from the row or from the
  counter. The remaining rows become edits.
- **Bulk update** (`process_updates`, `_check_update`, `apply_updates`).
  Each row of a pending update is compared with the current record of its
  entity. The row gets either a set of changes or a new-record flag. The
  rows an editor selects are marked as processed, and the update is
  completed.
- **Helpers**: `parse_date` / `date_to_string`, the form builder with its
  curie check and its skip list, and the `slugify` function of the
  browser script (ASCII input only).

The model is organised by the program's structure:

| file | module | models |
|---|---|---|
| `optional.dfy` | `Optional` | Python's `None` as `Option` |
| `ascii.dfy` | `Ascii` | character classes, `str.lower`, trimming, Python's `str.strip()` blankness over its whole whitespace set, `in` on strings |
| `pyint.dfy` | `PyInt` | `int(text)` and `str(n)` on integers |
| `dates.dfy` | `Dates` | `parse_date`, `date_to_string` (`application/utils.py`) |
| `slugify.dfy` | `Slugify` | `slugify` (`application/static/javascripts/application.js`) |
| `forms.dfy` | `Forms` | `curie_check`, `FormBuilder` (`application/forms.py`) |
| `records.dfy` | `Records` | CSV rows, the `-date` normalisation, `_order_records` |
| `uploads.dfy` | `Uploads` | `_allowed_file` and the planning logic of `upload_csv` |
| `updates.dfy` | `Updates` | `_check_update`, `process_updates`, `apply_updates` |

The code is modelled in the form it takes in the source:

- Pure helpers are functions. `_check_update` is a function `CheckUpdate`,
  and its priority order, its diff and its idempotence are lemmas about it.
- Loops become methods proved equal to a specification function. The three
  loops of `upload_csv` are the methods `ScanRows`, `NormaliseRecords` and
  `SplitGroups`, composed in `UploadCsv`. `ScanRows` is proved equal to
  the functions `PreScan`, `GroupKeys` and `GroupOf`, `NormaliseRecords` to
  `NormaliseAll` on every group, and `SplitGroups` to `PlanGroups`.
  `UploadCsv` is proved equal to the function `Upload`. The properties of
  the upload (the outcome classes, group order, the record chosen to
  create, entity numbering) are lemmas about `Upload` and `PlanRows`.
- Objects the views change in place are classes: `FormBuilder`, `Update`
  and `UpdateRecord`. `ProcessUpdates` and `ApplyUpdates` change their
  fields under `modifies` clauses.

The database is passed in as parameters:

- the update found by its id, or `null`;
- the current records as a map from entity number to the record's
  dictionary;
- the dataset's field names;
- the submitted `record_id` values.

Python exceptions that reach the framework are modelled as outcomes:

- `Failed` is an upload whose error is caught and flashed.
- `ServerError` is an uncaught error, which the framework answers with 500.
- `NotFound` is `abort(404)`.

Three facts about the code that the model keeps:

- The row that creates a record is the first row after ordering by end
  date (views.py:86-87), with rows without an end date last
  (views.py:28-29). It is not necessarily the open row.
- The upload reads only `entity_minimum` (views.py:50-67) and never checks
  `entity_maximum`.
- `_check_update` looks at the incoming end date (views.py:276) before it
  compares the field sets (views.py:280).

## Model

| member | source | states |
|---|---|---|
| Ascii.TrimStartSpec | application/static/javascripts/application.js:18 | `trim` (and, in this model, `int()` around a number) removes exactly the leading run of C whitespace (code points 9 to 13 and 32): the rest is a suffix of the input that does not start with whitespace, and everything dropped is whitespace |
| Ascii.TrimEndSpec | application/static/javascripts/application.js:18 | likewise for the trailing run of whitespace |
| PyInt.ParseInt | application/blueprints/uploads/views.py:66-67 | `int(text)`: a text it accepts ends, once trimmed, in a digit, and a negative result comes from a leading `-` |
| PyInt.DecimalRoundTrip | application/blueprints/uploads/views.py:235 | `int(str(n)) == n` for every integer |
| PyInt.DecimalStringInjective | application/blueprints/uploads/views.py:233-235 | distinct ids have distinct `str` forms |
| Dates.ParseDate | application/utils.py:20-41 | `parse_date`: `None` gives `None`, a date gives itself, and a string parses only when it starts with the four digits of the resulting year |
| Dates.ParseDateFixedPoints | application/utils.py:20-24 | `None` parses to `None`, a date comes back unchanged, so `parse_date` is idempotent on its own results |
| Dates.DateToString | application/utils.py:44-48 | `date_to_string` gives `""` exactly for a value that is not a date, and otherwise ten characters with `-` at positions 4 and 7 |
| Dates.FormatShape | application/utils.py:44-48 | `date_to_string` writes `DDDD-DD-DD` whose digits are the year, month and day of the date |
| Dates.FormatThenParse | application/utils.py:20-48 | `date_to_string` yields `DDDD-DD-DD`, and `parse_date` reads it back as the same date |
| Dates.CanonicalParse | application/utils.py:25-27 | on a `DDDD-DD-DD` string, `%Y-%m-%d` succeeds exactly when the year, month and day form a real date |
| Dates.ParseThenFormat | application/utils.py:20-48 | a `DDDD-DD-DD` string that parses is reproduced exactly by formatting its date |
| Dates.YearOnly | application/utils.py:32-37 | a bare four-digit year reads as 1 January of that year; year 0000 gives `None` |
| Dates.ParseDateExamples | tests/unit/test_utils.py:6-21 | the unit-test cases of `parse_date`: `2022-01-01` parses; `2022-13-01`, `""`, `None` and `01-01-2022` give `None` |
| Dates.DateToStringExamples | tests/unit/test_utils.py:24-32 | the unit-test cases of `date_to_string`: 1 January 2024 formats as `2024-01-01`; `""`, text, an integer and `None` format as `""` |
| Slugify.Slugify | application/static/javascripts/application.js:13-30 | `slugify` on ASCII input never lengthens its input |
| Slugify.SlugKeepsAlnums | application/static/javascripts/application.js:13-30 | the slug holds exactly the letters and digits of the lower-cased input, in order, with only hyphens between them |
| Slugify.SlugCharsOnly | application/static/javascripts/application.js:24-27 | every character of a slug is a lower-case letter, a digit or a hyphen |
| Slugify.SlugNoDoubleHyphen | application/static/javascripts/application.js:27 | a slug never holds two hyphens in a row |
| Slugify.SlugifyIdempotent | application/static/javascripts/application.js:13-30 | a slug is ASCII, and slugifying it again changes nothing |
| Slugify.ExampleEmpty | application/static/javascripts/application.js:14-15 | empty input gives `""` |
| Slugify.ExampleSpace | application/static/javascripts/application.js:18-27 | `A b` gives `a-b` |
| Slugify.ExampleTrimInvalid | application/static/javascripts/application.js:18-27 | ` X! ` gives `x`: the spaces are trimmed, `!` becomes a space, and the second trim drops it |
| Forms.SplitCount | application/forms.py:10 | `str.split(sep)` returns one more part than there are separators |
| Forms.CurieCheckError | application/forms.py:9-13 | `curie_check` raises only the message naming the field, and always raises on text without a colon |
| Forms.CurieCheckOneColon | application/forms.py:9-13 | a curie passes exactly when it holds one colon; otherwise the error is `<name> is a curie and should be in the format 'namespace:identifier'` |
| Forms.CurieCheckAcceptsExample | tests/unit/test_forms.py:36-43 | `foo:bar` passes the curie check |
| Forms.CurieCheckRejectsExample | tests/unit/test_forms.py:46-57 | `foo` fails with the message naming `organisation` |
| Forms.FormFieldFor | application/forms.py:29-43 | `build` makes a field exactly for a datatype `field_types` knows, of that datatype's class, with at most one validator |
| Forms.FormFieldDispatch | application/forms.py:17-43 | a field gets a form field exactly when its datatype is known. The class follows the datatype. The rules apply in priority order: curie check for curies, then required for name/reference, then URL for slugs containing `url`, then the date widget for datetimes |
| Forms.RequiredFieldsRejectEmpty | application/forms.py:34-37 | a non-curie `name` or `reference` field is required, and `DataRequired` rejects missing or blank input with `This field is required.` |
| Forms.RequiredFieldsExample | tests/unit/test_forms.py:60-77 | empty `name` and `reference` string fields both fail with `This field is required.` |
| Forms.FormFieldsMembers | application/forms.py:53-59 | the builder keeps exactly the fields whose slug is not in the skip list |
| Forms.FormFieldsAppend | application/forms.py:57-59 | the skip filter keeps the order of the fields |
| Forms.FieldsFormKeys | application/forms.py:29-43 | the form has a field for exactly the slugs of fields with a known datatype |
| Forms.FieldsFormValues | application/forms.py:29-43 | with distinct slugs, each slug holds the form field its field dispatches to |
| Forms.FormOfContents | application/forms.py:25-48 | the built form holds the dispatched fields, plus a required `edit_notes` text area exactly when it was asked for |
| Forms.FormBuilder.constructor | application/forms.py:53-59 | the builder stores the skip-filtered fields and the `include_edit_notes` flag |
| Forms.FormBuilder.Build | application/forms.py:25-48 | `build` returns the form of the stored fields |
| Records.NormaliseCell | application/blueprints/uploads/views.py:77-82 | a `-date` cell ends up `None` or a date: `None` when it is missing or empty, otherwise `parse_date` of its text. Any other cell is kept as it was |
| Records.NormaliseRow | application/blueprints/uploads/views.py:77-82 | normalisation keeps the row's columns, every `-date` column holds `None` or a date, and every other column is unchanged |
| Records.NormaliseCanonicalDate | application/blueprints/uploads/views.py:78-82 | a date cell written as `date_to_string` writes it normalises to that date |
| Records.NormalisedComparable | application/blueprints/uploads/views.py:26-34 | after normalisation every end date is `None` or a date, so the sort key never compares text with a date |
| Records.OrderRecords | application/blueprints/uploads/views.py:26-34 | `_order_records` returns as many rows as it is given, each with a comparable end date |
| Records.OrderRecordsPermutation | application/blueprints/uploads/views.py:26-34 | `_order_records` returns a permutation of its rows |
| Records.OrderRecordsSorted | application/blueprints/uploads/views.py:26-34 | the rows come out ordered by end date, with a missing end date as `date.max` |
| Records.OrderRecordsStable | application/blueprints/uploads/views.py:33 | rows with equal end dates keep their relative order |
| Records.OrderRecordsHead | application/blueprints/uploads/views.py:26-34 | the first row has the earliest end date, and among the rows with that end date it is the first in the file |
| Uploads.AllowedFile | application/blueprints/uploads/views.py:294-295 | an accepted file name ends in a dot and three characters |
| Uploads.AllowedFileIff | application/blueprints/uploads/views.py:294-295 | a file is accepted exactly when its name ends in `.csv` in any letter case |
| Uploads.PreScan | application/blueprints/uploads/views.py:50-67 | the first pass never moves the counter below `entity_minimum` |
| Uploads.PreScanParses | application/blueprints/uploads/views.py:64-67 | the first pass succeeds exactly when every non-empty entity cell is an integer |
| Uploads.PreScanBounds | application/blueprints/uploads/views.py:50-67 | the counter is at least `entity_minimum` and above every entity in the file |
| Uploads.PreScanAttained | application/blueprints/uploads/views.py:50-67 | the counter is `entity_minimum` or one more than an entity in the file |
| Uploads.GroupKeys | application/blueprints/uploads/views.py:62-73 | there are never more groups than rows |
| Uploads.GroupKeysFirstAppearance | application/blueprints/uploads/views.py:62-73 | the groups are the distinct references of the rows, in order of first appearance |
| Uploads.GroupOfAppend | application/blueprints/uploads/views.py:69-73 | each group holds the rows of its reference in file order |
| Uploads.GroupOfNonEmpty | application/blueprints/uploads/views.py:70-71 | a reference that occurs has a non-empty group |
| Uploads.NormaliseRecord | application/blueprints/uploads/views.py:77-82 | the cell loop turns a row into its normalised row |
| Uploads.PlanGroup | application/blueprints/uploads/views.py:85-94 | one group keeps its row id and reference, has one edit fewer than it has rows, and takes one number from the counter exactly when its record has no entity |
| Uploads.PlanGroupsNumbering | application/blueprints/uploads/views.py:89-92 | each record without an entity takes the counter, which then moves on by one |
| Uploads.PlanGroupsEntities | application/blueprints/uploads/views.py:84-94 | counter-assigned entities lie between the starting and final counter and strictly increase |
| Uploads.Upload | application/blueprints/uploads/views.py:42-119 | an upload is planned only for a `.csv` name with a header whose entities all parse |
| Uploads.UploadOutcomes | application/blueprints/uploads/views.py:42-119 | the upload is refused exactly for a non-`.csv` name. It is rejected exactly when the header names fields outside the dataset, and it reports exactly those fields. It fails exactly on a missing header or an unreadable entity |
| Uploads.UploadPlanned | application/blueprints/uploads/views.py:84-117 | a planned upload splits the rows with the counter from the first pass |
| Uploads.PlanGroupsAt | application/blueprints/uploads/views.py:84-94 | the `g`-th group the split loop plans belongs to the `g`-th reference. Its record is the first of that reference's ordered rows, with the entity that row names, or with the counter exactly when it names none. The other rows follow as edits, in order |
| Uploads.PlanRowsOrder | application/blueprints/uploads/views.py:84-87 | there is one group per reference: group `g` has `row_id` `g` and the `g`-th reference in order of first appearance |
| Uploads.PlanRowsRecords | application/blueprints/uploads/views.py:84-108 | a group's record is the first of its ordered rows with the chosen entity; the rest are its edits |
| Uploads.PlanRowsEntities | application/blueprints/uploads/views.py:50-94 | counter-assigned entities are at least `entity_minimum`, above every entity in the file and strictly increasing; other groups keep an entity written in one of their rows |
| Uploads.HeadIsFileRow | application/blueprints/uploads/views.py:86-94 | the row that creates a record is a row of the file with that reference, so an entity it names is written in the file |
| Uploads.PlanRowsExplicit | application/blueprints/uploads/views.py:93-94 | a group with an explicit entity takes it from a row of its own reference |
| Uploads.ScanRows | application/blueprints/uploads/views.py:62-73 | the reading loop computes the first pass's counter and the groups |
| Uploads.NormaliseRecords | application/blueprints/uploads/views.py:75-82 | the normalisation loop normalises every row of every group |
| Uploads.SplitGroup | application/blueprints/uploads/views.py:85-94 | one pass of the split loop plans the group of one reference and moves the counter as `PlanGroup` does |
| Uploads.SplitGroups | application/blueprints/uploads/views.py:84-94 | the split loop plans the groups and advances the counter as `PlanGroups` does |
| Uploads.UploadCsv | application/blueprints/uploads/views.py:42-119 | the view's outcome is `Upload` of its inputs |
| Updates.CheckUpdate | application/blueprints/uploads/views.py:273-291 | `_check_update` raises only when an end date is missing, and reports only `error`, `end-date` or compared keys of the incoming row |
| Updates.CheckUpdatePriority | application/blueprints/uploads/views.py:273-281 | a current record that has ended gives only the "already ended" error. Otherwise an incoming end date gives the single key `end-date`. Otherwise a key set other than the fields gives the mismatch error. Otherwise the result is the diff. The check raises exactly on a missing end date |
| Updates.DiffKeys | application/blueprints/uploads/views.py:283-291 | the diff holds exactly the incoming keys outside `entity`, `prefix`, `reference` and `end-date` whose current value differs, and is empty exactly when none differs |
| Updates.CheckAfterApply | application/blueprints/uploads/views.py:283-291 | once the incoming values are written into the current record, checking the row again finds no change |
| Updates.CheckUpdateEndedExample | application/blueprints/uploads/views.py:274-275 | a record that ended on 2024-01-01 gives the "already ended" error |
| Updates.CheckUpdateUnicodeBlankExample | application/blueprints/uploads/views.py:274 | a current end date holding only a no-break space counts as blank, so an unchanged row gives no changes |
| Updates.ClassifyRow | application/blueprints/uploads/views.py:190-206 | a row is compared, flagged new or fails its check only when its entity parses, and it is flagged new exactly when no current record has that number |
| Updates.ClassifyKnownEntity | application/blueprints/uploads/views.py:191-206 | a row whose entity is written as `str` writes it is compared with the current record of that number, or flagged new when there is none |
| Updates.ProcessRecord | application/blueprints/uploads/views.py:191-206 | one pass of the loop attaches the changes or the new-record flag the row's class calls for, and leaves a row it stops at untouched |
| Updates.ProcessRecords | application/blueprints/uploads/views.py:190-212 | rows before the first failing row get their classification, the failing row and every later row are untouched, and the answer is 404 for a missing entity, 500 for an unreadable entity or a failing check, else the page |
| Updates.ProcessUpdates | application/blueprints/uploads/views.py:178-217 | 404 with nothing changed unless the update is pending and belongs to the dataset; otherwise as `ProcessRecords` |
| Updates.ApplyUpdates | application/blueprints/uploads/views.py:223-270 | 404 with nothing changed unless the update is pending and belongs to the dataset. Otherwise it marks processed exactly the rows whose `str(id)` was submitted, leaves every other row and field as it was, and completes the update |
| Updates.MarkSelected | application/blueprints/uploads/views.py:234-264 | the loop marks processed exactly the rows whose `str(id)` was submitted and changes nothing else about the rows |
| Updates.SelectionByIdOnly | application/blueprints/uploads/views.py:233-235 | a submitted value selects the rows of at most one id |

## Left out

- Flask, WTForms, SQLAlchemy and the file system are not modelled. This covers request parsing, `secure_filename`, temporary files, sessions, commits, flash messages, templates and `login_required`.
- `Record.factory`, `create_change_log`, `Record.to_dict` and `application/models.py` are not part of this model. The planning of `upload_csv` ends with the groups, each with the row that creates the record and the rows that become edits. The current records given to `_check_update` are maps from field to a string or `None`.
- Uploads.UploadCsv: does not model the error path at views.py:105-106. When `Record.factory` or a commit fails, the view logs the error and goes on, and the later edits use a stale or unbound `record`.
- Uploads.UploadCsv: does not model a CSV line longer than its header. `DictReader` then adds a `None` key, and `"-date" in None` raises.
- Uploads.UploadCsv: `entity_minimum` is taken to be an integer. A dataset without one makes the comparison raise.
- The `update_csv` route, the edit and archive routes, `commands.py`, the migrations, the configuration and field ordering are not part of this model.
- Updates.ApplyUpdates: does not model a selected row whose data has no `entity` key. Indexing `data["entity"]` raises before the commit, so nothing is stored.
- Updates.ApplyUpdates: does not model the change logs and new records it creates. Both branches set `processed`, and only that and the status are modelled.
- Updates.ProcessUpdates: the SQL filter on the update id is modelled as the caller passing the update with that id, or `null`.
- Updates.ProcessRecords: requires the rows of an update to be distinct objects, as each is its own database row.
- PyInt.ParseInt: reads ASCII digits only and skips only C whitespace around the number. It does not model Python's 4300-digit limit, non-ASCII digits, or the other whitespace `int()` skips (U+001C to U+001F and the Unicode spaces).
- Dates.DateToString: always pads the year to four digits. Some C libraries write years below 1000 with fewer digits.
- Dates.ParseDate: ASCII only. The `%Y` year is taken as exactly four digits, and the messages printed on failure are left out.
- Slugify.Slugify: requires ASCII input. The NFD accent stripping does not change ASCII text, and full Unicode lower-casing and whitespace are left out.
- Forms.FormFieldFor: the URL validator is modelled by name only; what it accepts is not modelled. The form's field order and the `form_fields` sort are left out.
- `DateTimeEncoder` and the page script's DOM wiring (`init`) are not modelled.
