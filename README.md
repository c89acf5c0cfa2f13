# Movies catalogue: SQLite to PostgreSQL copy and its consistency check

This project models the data-migration core of the movies catalogue.

- `03_sqlite_to_postgres/load_data.py` copies every table that an SQLite file lists into the `content` schema of a PostgreSQL database. It reads each table, turns every row into the tuple of its dataclass, and sends the tuples in batches of `batch_size` through `executemany` of one `INSERT ... ON CONFLICT DO NOTHING` statement. It commits once at the end. An SQLite error ends the run with exit status 10, and a PostgreSQL error with exit status 11.
- `03_sqlite_to_postgres/tests/check_consistency.py` re-reads both stores for every listed table. It requires equal row counts and indexes the SQLite records by `id`, after parsing their `created_at`/`updated_at` text. It then requires every PostgreSQL record to be found by `id` with an equal record, after renaming `created`/`modified` to the SQLite names.
- `02_movies_admin/movies/models/models.py` declares the record schema of the destination:
  - five entities;
  - the `FilmType` and `Role` choices;
  - the 0–10 rating bound and the 255-character limits;
  - nullability;
  - the `type` column of `film_type` and the `<field>_id` columns of foreign keys;
  - the quoted `content"."<table>` table names.

The Dafny modules follow that structure.

- `Wrappers`: `Option` and `Result`.
- `Timestamp`: the fixed text format `%Y-%m-%d %H:%M:%S.%f+00` of the SQLite timestamps, with a formatter and a parser proved inverse.
- `Rows`: column values, rows as maps from column name to value, and tuples.
- `Schema`: the entities of `models.py`. `ToRow` lays an entity out as a destination row. `FromRow` reads a row back while enforcing the declared constraints. The two are proved inverse.
- `Batching`: how `upload_table` cuts a table's tuples into batches: all full but the last, none empty. The partition is proved unique.
- `Destination`: PostgreSQL's tables as rows in insertion order and the insert-or-ignore effect of `ON CONFLICT DO NOTHING`. A `Postgres` class stands for a connection. It keeps what the session sees (`tables`) and what is committed (`committed`). Two ghost fields record the accepted `executemany` calls (`log`) and the number of commits.
- `LoadData`: the registry, the settings and the exit codes. `UploadTable` and `LoadFromSqlite` are imperative methods whose loops are proved against the pure specifications `Upload` and `Load`. Further lemmas cover the whole run:
  - what it leaves, as the replay of every flush;
  - idempotence of a second run;
  - on the `content` database, no refused flush and a keyed row in every flush;
  - batch-size independence;
  - the first failing table ending the run.
- `CheckConsistency`:
  - the two row normalisations, with their inverses;
  - `CheckTables` and `CheckData`, imperative loops proved against `CheckTable` and `CheckAll`;
  - lemmas saying exactly when a table passes, and that a passing table holds the same records on both sides.

Behaviour of the code that the model keeps:

- Tables are copied and checked in the order `sqlite_master` lists them, not in a fixed parent-before-child order.
- Any `batch_size` is accepted. With `batch_size < 1`, `len(batch) == n` never holds, so all rows go in one final `executemany`.
- A table name missing from the registry raises a `KeyError` that nobody catches, so the exit status is 1. There is no dedicated error code for it.
- A failed consistency check ends on an uncaught exception, not a dedicated exit status: an `AssertionError` for a count or record mismatch, a `KeyError` for an unregistered table or an unknown id, the `ValueError` of `strptime` for a malformed timestamp (check_consistency.py:38-40), the constructor's `TypeError` for a row the dataclass refuses (check_consistency.py:42 and 53), or the error of a failing `SELECT`. `CheckConsistency.CheckError` has one case for each.
- The checker always reads schema `content`, whatever `output_dbname` the copy used.

## Model

| member | source | states |
|---|---|---|
| Timestamp.ParseFormat | 03_sqlite_to_postgres/tests/check_consistency.py:38-40 | parsing the formatted text of any valid instant gives that instant back |
| Timestamp.FormatParse | 03_sqlite_to_postgres/tests/check_consistency.py:38-40 | any text the fixed format accepts is exactly the formatted text of the instant it parses to |
| Schema.ParseFilmType | 02_movies_admin/movies/models/models.py:50-55 | a stored film type is accepted iff it is `movie`, `short` or `tvSeries`, and it is then the stored value of the choice returned |
| Schema.ParseRole | 02_movies_admin/movies/models/models.py:102-107 | a stored role is accepted iff it is `actor`, `writer` or `director`, and it is then the stored value of the choice returned |
| Schema.Columns | 02_movies_admin/movies/models/models.py:68-73 | each field's column: `type` for `film_type`, `<field>_id` for a foreign key, the field's own name otherwise |
| Schema.ColumnsDistinct | 02_movies_admin/movies/models/models.py:89-120 | no two fields of a model are stored in the same column |
| Schema.QuotedDbTable | 02_movies_admin/movies/models/models.py:25 | quoting `db_table` as one identifier yields the schema-qualified `"content"."<table>"` |
| Schema.ToRowColumns | 02_movies_admin/movies/models/models.py:89-99 | an entity's row has exactly the columns of its table; the join tables have `created` and no `modified` |
| Schema.FromToRow | 02_movies_admin/movies/models/models.py:15-125 | every entity that meets the declared constraints is read back unchanged from its own row |
| Schema.ToFromRow | 02_movies_admin/movies/models/models.py:58-73 | a row is accepted only if the entity read meets every constraint, and the row agrees with that entity's layout on every column |
| Schema.NameSound | 02_movies_admin/movies/models/models.py:19 | an accepted name is stored text of at most 255 characters |
| Schema.OptTextSound | 02_movies_admin/movies/models/models.py:21 | an accepted nullable text column holds NULL or the text read |
| Schema.TextSound | 02_movies_admin/movies/models/models.py:92-93 | an accepted required text column holds the text read |
| Schema.StampSound | 02_movies_admin/movies/models/models.py:94 | an accepted timestamp column holds a valid instant |
| Schema.OptDateSound | 02_movies_admin/movies/models/models.py:63 | an accepted `creation_date` is NULL or the date read |
| Schema.RatingSound | 02_movies_admin/movies/models/models.py:65-67 | an accepted rating is NULL or a number within [0, 10] |
| Schema.FilmTypeSound | 02_movies_admin/movies/models/models.py:68-73 | an accepted `type` column holds the stored value of the film type read |
| Schema.RoleSound | 02_movies_admin/movies/models/models.py:119 | an accepted `role` column holds the stored value of the role read |
| Schema.GenreReadsBack | 02_movies_admin/movies/models/models.py:15-25 | an accepted genre row is a valid genre laid out as its row |
| Schema.PersonReadsBack | 02_movies_admin/movies/models/models.py:34-42 | an accepted person row is a valid person laid out as its row |
| Schema.FilmworkReadsBack | 02_movies_admin/movies/models/models.py:58-81 | an accepted film work row is a valid film work laid out as its row |
| Schema.GenreFilmworkReadsBack | 02_movies_admin/movies/models/models.py:89-99 | an accepted genre–film work row is a valid link laid out as its row |
| Schema.PersonFilmworkReadsBack | 02_movies_admin/movies/models/models.py:110-125 | an accepted person–film work row is a valid link laid out as its row |
| Schema.RejectsUnknownFilmType | 02_movies_admin/movies/models/models.py:68-73 | a film work row whose `type` column is missing, not text, or not one of the three choices is refused |
| Rows.Zip | 03_sqlite_to_postgres/load_data.py:105-107 | binding a tuple to distinct column names gives the row mapping each column to the value at its position |
| Batching.ConcatBatches | 03_sqlite_to_postgres/load_data.py:113-125 | the batches, concatenated, are the table's tuples in order |
| Batching.BatchSizes | 03_sqlite_to_postgres/load_data.py:115-125 | no batch is empty; with `n >= 1` every batch holds at most `n` tuples and all but the last exactly `n`; with `n < 1` there is at most one batch |
| Batching.BatchCount | 03_sqlite_to_postgres/load_data.py:113-125 | there are ceil(rows / n) batches |
| Batching.LastBatchLength | 03_sqlite_to_postgres/load_data.py:121-125 | the final `if batch:` flush holds exactly the tuples left over after the full batches |
| Batching.BatchBoundary | 03_sqlite_to_postgres/load_data.py:113-125 | `k*n + r` rows give `k` full batches plus one of `r` rows, and no trailing batch when `r = 0` |
| Batching.BatchesUnique | 03_sqlite_to_postgres/load_data.py:113-125 | any split of the tuples into full batches followed by one nonempty remainder is the one `upload_table` makes |
| Destination.InsertAllExtends | 03_sqlite_to_postgres/load_data.py:107 | rows already in the table are never changed, removed or reordered |
| Destination.InsertAllCovers | 03_sqlite_to_postgres/load_data.py:107 | after the insert, every keyed row sent is present or stands behind a row it conflicts with |
| Destination.InsertAllNoOp | 03_sqlite_to_postgres/load_data.py:107 | inserting rows that all conflict with rows present changes nothing |
| Destination.InsertAllIdempotent | 03_sqlite_to_postgres/load_data.py:107 | inserting the same keyed rows twice leaves the table as inserting them once |
| Destination.InsertAllNoDuplicates | 03_sqlite_to_postgres/load_data.py:107 | insert-or-ignore keeps every unique constraint holding |
| Destination.InsertAllAppend | 03_sqlite_to_postgres/load_data.py:117 | inserting rows in two consecutive parts equals inserting them all at once |
| Destination.ReplayDefined | 03_sqlite_to_postgres/load_data.py:116-125 | a sequence of `executemany` calls succeeds iff the server accepts each of them |
| Destination.ReplayAppend | 03_sqlite_to_postgres/load_data.py:113-125 | replaying two logs one after the other is replaying their concatenation |
| Destination.ReplayCovers | 03_sqlite_to_postgres/load_data.py:107 | a successful replay only appends rows and leaves every keyed row it sent covered |
| Destination.ExecuteCovers | 03_sqlite_to_postgres/load_data.py:107 | one accepted `executemany` only appends to its target table and leaves each keyed row it sent covered |
| Destination.ReplayNoOp | 03_sqlite_to_postgres/load_data.py:107 | replaying flushes whose rows are all covered already changes nothing |
| Destination.ReplayIdempotent | 03_sqlite_to_postgres/load_data.py:107 | sending the same keyed flushes again, after they all succeeded, succeeds and changes nothing |
| Destination.Postgres.constructor | 03_sqlite_to_postgres/load_data.py:80-81 | a fresh connection sees the committed contents, with an empty log and no commits |
| Destination.Postgres.ExecuteMany | 03_sqlite_to_postgres/load_data.py:117 | the call succeeds iff the server accepts the statement and tuples; it then applies insert-or-ignore and logs the call, and otherwise changes nothing; it never touches what is committed |
| Destination.Postgres.Commit | 03_sqlite_to_postgres/load_data.py:145-146 | what the session sees becomes committed, and nothing else changes |
| LoadData.Lookup | 03_sqlite_to_postgres/load_data.py:22-28 | a table name is registered iff it is one of the five tables, and it maps to the table of that name |
| LoadData.RegistryMatchesSchema | 03_sqlite_to_postgres/load_data.py:22-28 | every table of the schema is registered under its own name |
| LoadData.Settings | 03_sqlite_to_postgres/load_data.py:30-39 | the settings default to host `127.0.0.1`, port 5432 and batch size 100, and keep the other fields given |
| LoadData.PsycopgDict | 03_sqlite_to_postgres/load_data.py:41-48 | the connection arguments are exactly `dbname`, `user`, `password`, `host` and `port`, taken from the settings |
| LoadData.ExitCode | 03_sqlite_to_postgres/load_data.py:51-66 | every error exits with a non-zero status: 10 iff an SQLite error, 11 iff a PostgreSQL error, 1 otherwise |
| LoadData.ConvertAt | 03_sqlite_to_postgres/load_data.py:113-114 | each tuple is the dataclass data of the row at the same position |
| LoadData.InsertFor | 03_sqlite_to_postgres/load_data.py:104-112 | the statement targets `<db_name>.<table_name>`, names the model's fields in order, and has one placeholder per field |
| LoadData.FlushesAccepted | 03_sqlite_to_postgres/load_data.py:113-125 | every batch of a table is accepted iff the statement is sound (or nothing is sent) and every tuple fills the columns |
| LoadData.UploadTable | 03_sqlite_to_postgres/load_data.py:91-125 | the loop's result and the session's tables are those of `Upload`; on success the log grows by exactly the table's flushes; nothing is committed |
| LoadData.SendBatch | 03_sqlite_to_postgres/load_data.py:115-120 | one flush succeeds iff the server accepts the batch, and then extends what has been sent |
| LoadData.RefusedUpload | 03_sqlite_to_postgres/load_data.py:116-119 | a refused batch makes the whole upload fail with the PostgreSQL error |
| LoadData.LoadFromSqlite | 03_sqlite_to_postgres/load_data.py:128-148 | the run's result and the session's tables are those of `Load`; on success everything is committed exactly once and the log is the run's flushes; on failure nothing is committed |
| LoadData.LoadStops | 03_sqlite_to_postgres/load_data.py:139-144 | the first failing table ends the run, and later tables are never reached |
| LoadData.LoadReplays | 03_sqlite_to_postgres/load_data.py:128-148 | a run succeeds iff every listed table is registered and present and every flush is accepted; it then leaves the replay of all flushes in order |
| LoadData.LoadIdempotent | 03_sqlite_to_postgres/load_data.py:107 | running the copy again over what a run left succeeds and changes nothing, when every row carries a unique key |
| Schema.UniqueColumns | 02_movies_admin/movies/migrations/0002_auto_20220427_1141.py:22-29 | the primary key `id` is a unique set of every table, and every unique set is a non-empty list of distinct columns |
| Batching.ConcatHolds | 03_sqlite_to_postgres/load_data.py:113-125 | every tuple of every batch is one of the table's tuples |
| Destination.KeyedLogAppend | 03_sqlite_to_postgres/load_data.py:139-144 | two logs whose rows all carry a unique key give a joint log whose rows do too |
| LoadData.ContentCatalog | 02_movies_admin/movies/models/models.py:25 | the destination holds exactly the five registered tables of schema `content`, each with its unique sets |
| LoadData.IdentifiedKeyed | 03_sqlite_to_postgres/load_data.py:107 | a tuple with a non-NULL `id` binds to a row that carries its table's primary key |
| LoadData.SentTupleConverted | 03_sqlite_to_postgres/load_data.py:113-114 | every tuple `upload_table` sends is the conversion of some row of the table |
| LoadData.ContentTableKeyed | 03_sqlite_to_postgres/load_data.py:104-125 | into schema `content`, every flush of a registered table is accepted and each row it sends carries a unique key |
| LoadData.ContentRunKeyed | 03_sqlite_to_postgres/load_data.py:139-144 | into schema `content`, every flush of a whole run is accepted and keyed |
| LoadData.ContentLoadSucceeds | 03_sqlite_to_postgres/load_data.py:139-144 | into schema `content`, when every model names distinct fields and yields one value per field, and every row converts to a tuple with a non-NULL `id`: a run fails exactly when a listed table is unregistered or missing from SQLite, so the server refuses nothing |
| LoadData.ContentLoadIdempotent | 03_sqlite_to_postgres/load_data.py:107 | into schema `content`, under the same conditions as `ContentLoadSucceeds`, a second run over what a successful run left succeeds and changes nothing: every row sent the second time conflicts with its own first copy |
| LoadData.ReplayAsOne | 03_sqlite_to_postgres/load_data.py:113-125 | sending batches one after another has the effect of one `executemany` of all their tuples |
| LoadData.AcceptsAppend | 03_sqlite_to_postgres/load_data.py:117 | two batches are accepted one after another iff their concatenation is |
| LoadData.ExecuteAppend | 03_sqlite_to_postgres/load_data.py:117 | executing two batches in turn is executing their concatenation |
| LoadData.UploadAsOne | 03_sqlite_to_postgres/load_data.py:91-125 | uploading a nonempty table has the effect of one `executemany` of all its converted rows |
| LoadData.BatchSizeIrrelevant | 03_sqlite_to_postgres/load_data.py:113-125 | the batch size never changes the outcome of an upload |
| LoadData.UploadAccepted | 03_sqlite_to_postgres/load_data.py:104-125 | uploading a table SQLite has, with a dataclass that fills its distinct fields, into a table that exists, never fails |
| CheckConsistency.NormalizeSource | 03_sqlite_to_postgres/tests/check_consistency.py:34-40 | succeeds iff every `created_at`/`updated_at` present parses; it then keeps every key, parses those two, and leaves the rest unchanged; a failure is a bad timestamp |
| CheckConsistency.FormatNormalized | 03_sqlite_to_postgres/tests/check_consistency.py:36-40 | writing a normalised row's instants back as text gives the stored row |
| CheckConsistency.NormalizeFormatted | 03_sqlite_to_postgres/tests/check_consistency.py:36-40 | a row of valid instants survives being written as text and normalised again |
| CheckConsistency.RenameKey | 03_sqlite_to_postgres/tests/check_consistency.py:46-51 | the value moves from the old key to the new one, and every other key is untouched |
| CheckConsistency.NormalizeDest | 03_sqlite_to_postgres/tests/check_consistency.py:43-51 | `created` becomes `created_at` and `modified` becomes `updated_at` with their values, and every other column is kept |
| CheckConsistency.RenamesCommute | 03_sqlite_to_postgres/tests/check_consistency.py:45-51 | the order in which the keys are visited does not matter |
| CheckConsistency.RestoreNormalized | 03_sqlite_to_postgres/tests/check_consistency.py:45-51 | renaming back restores a PostgreSQL row |
| CheckConsistency.EntityRowRenamed | 03_sqlite_to_postgres/tests/check_consistency.py:45-51 | a stored entity's renamed row carries `created_at`, and `updated_at` exactly when the entity is not a join, and loses nothing |
| CheckConsistency.IndexDefined | 03_sqlite_to_postgres/tests/check_consistency.py:33-42 | `id2item` is built iff every SQLite row normalises, builds and has an id |
| CheckConsistency.IndexKeys | 03_sqlite_to_postgres/tests/check_consistency.py:33-42 | `id2item` holds exactly the SQLite ids |
| CheckConsistency.IndexLastWins | 03_sqlite_to_postgres/tests/check_consistency.py:42 | each id maps to the record of the last row carrying it |
| CheckConsistency.IndexStops | 03_sqlite_to_postgres/tests/check_consistency.py:33-42 | building the index stops at the first row that fails |
| CheckConsistency.CompareAll | 03_sqlite_to_postgres/tests/check_consistency.py:43-54 | the comparison passes iff every PostgreSQL row is found by id with an equal record |
| CheckConsistency.CompareStops | 03_sqlite_to_postgres/tests/check_consistency.py:43-54 | the comparison stops at the first row that fails |
| CheckConsistency.CheckTablePasses | 03_sqlite_to_postgres/tests/check_consistency.py:31-54 | a table passes iff the counts agree, the index is built, and every PostgreSQL row matches |
| CheckConsistency.CountsChecked | 03_sqlite_to_postgres/tests/check_consistency.py:31 | different row counts are reported as such before any row is read |
| CheckConsistency.DestIdsIndexed | 03_sqlite_to_postgres/tests/check_consistency.py:53-54 | every id of a passing PostgreSQL row is in the index, with an equal record |
| CheckConsistency.SameRecords | 03_sqlite_to_postgres/tests/check_consistency.py:31-54 | with distinct PostgreSQL ids, a passing table has distinct SQLite ids, the same id set on both sides, and the same record for each id |
| CheckConsistency.CheckAllPasses | 03_sqlite_to_postgres/tests/check_consistency.py:75-80 | the check passes iff every listed table is registered and passes against schema `content` |
| CheckConsistency.CheckAllStops | 03_sqlite_to_postgres/tests/check_consistency.py:75-80 | the check stops at the first table that fails |
| CheckConsistency.CheckTables | 03_sqlite_to_postgres/tests/check_consistency.py:16-54 | the count check and the two loops give exactly the result of `CheckTable` |
| CheckConsistency.IndexRows | 03_sqlite_to_postgres/tests/check_consistency.py:33-42 | the loop filling `id2item` ends with exactly `Index` of the SQLite rows, or its first failure |
| CheckConsistency.CompareRows | 03_sqlite_to_postgres/tests/check_consistency.py:43-54 | the loop over the PostgreSQL rows gives exactly `Compare` against `id2item` |
| CheckConsistency.CheckNamed | 03_sqlite_to_postgres/tests/check_consistency.py:74-79 | one pass of the table loop gives exactly `CheckListed` for that name: unknown name, missing table, or the table's check |
| CheckConsistency.CheckData | 03_sqlite_to_postgres/tests/check_consistency.py:66-80 | the loop over listed tables gives exactly the result of `CheckAll` on what PostgreSQL has committed, and writes nothing |

## Left out

- Connections: `conn_context` (load_data.py:69-88), opening and closing both connections, the row factories and cursors are not modelled. SQLite's contents and PostgreSQL's provisioned tables are given to the methods as values.
- Printing: `print` calls, the messages and tracebacks of the error handlers, and `sys.exit` are not modelled. Only the exit status is modelled, as `LoadData.ExitCode`.
- A failing `SELECT name FROM sqlite_master`: the listed names are taken as given.
- The dataclasses of the `03_sqlite_to_postgres` models module are not part of this model. `get_fields()`, `get_data()`, the constructor and dataclass equality stand behind `LoadData.DataModel` and the `build` functions of `CheckConsistency`, which are arbitrary.
- PostgreSQL refusals are modelled only for three causes: a missing table, a statement naming a column twice, and a tuple of the wrong length. A statement naming a column the table lacks, and foreign-key, NOT NULL and type violations, are not modelled: `Destination.Catalog` records each table's unique column sets, not its columns, so `Accepts` takes any column name. A foreign-key violation is what a child table listed before its parent would produce.
- A failing `commit` is not modelled: `Destination.Postgres.Commit` always succeeds.
- The insert-or-ignore model takes each table's unique column sets from the `Catalog`, a parameter of every `Destination` and `LoadData` member. `LoadData.ContentCatalog` fills it with `Schema.UniqueColumns` for schema `content`: the primary key of every table, plus `genre.name` and (`film_work_id`, `person_id`, `role`), which come from the migration rather than from `models.py`. The general lemmas hold for any catalog.
- `strptime` leniency is not modelled. It accepts unpadded fields and 1 to 5 fraction digits; the model's format is the fixed-width one the copy writes. Days are limited to 1–31, whatever the month.
- Floats are modelled as reals, dates as a year, month and day triple, and times as whole fields with microseconds. Time zones are not modelled beyond the literal `+00`.
- Python's `assert` statements disappear under `python -O`. The model keeps them as checks.
- The parameter `n` of `check_tables` is unused there, and the model leaves it out.
- The inner loops over a row's keys (check_consistency.py:36-40 and 45-51) are modelled as the functions `NormalizeSource` and `NormalizeDest`, not as loops. `NormalizeSource` always tries `created_at` before `updated_at`, while the source visits the keys in the row's column order: when both hold malformed text, the key `BadTimestamp` names can differ from the one whose `ValueError` the source raises. Whether the row fails does not depend on the order.
- The Django admin, the rest of the web application and the schema migrations are out of scope.
- check_consistency.py:11 imports `BaseImportDataclass` from `load_data`, which neither defines nor imports that name (load_data.py:20 imports only the five dataclasses), so the script as written stops with an `ImportError` before any check runs. The model assumes the import succeeds.
- LoadData.UploadTable: after a refused batch, the contract states only that nothing is committed. The batches already sent before the refusal are left unstated, as is the state of the aborted transaction.
- LoadData.DataModel: `get_data()` of an instance built by `model(**dict(item))` (load_data.py:114) is total in the model. In the source the constructor can raise, for example a `TypeError` for a column that is not a dataclass field; nobody catches it, so the run exits with status 1 and commits nothing. `RunError` has no case for it, so `ExitCode`'s status 1 is reached only through `UnknownTable`. Modelling it would make the outcome of a table depend on whether the failing row or a refused batch comes first, which depends on the batch size.
- Destination.Postgres.ExecuteMany: a refused call leaves the session's tables unchanged in the model. psycopg2 runs the tuples one at a time, so a tuple of the wrong length in the middle of a batch comes after the tuples before it were already inserted. The difference is never observable: the run then exits without committing.
- LoadData.LoadFromSqlite: after a failure, the contract states only that nothing is committed and the commit count is unchanged. What the session sees is left unstated.
- No lemma connects a successful copy to a passing check. That would need the dataclass conversion and equality of the `03_sqlite_to_postgres` models module.
