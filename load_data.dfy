/**
 * The SQLite to PostgreSQL copy (03_sqlite_to_postgres/load_data.py): the table registry,
 * the settings and the connection parameters derived from them, the exit codes of the two
 * error handlers, `upload_table` (read one table, convert each row, send the tuples in
 * batches of `n` with `INSERT ... ON CONFLICT DO NOTHING`) and `load_from_sqlite` (upload
 * every table SQLite lists, then commit once).
 *
 * The row conversion `model(**dict(item)).get_data()` and the field list `model.get_fields()`
 * belong to a models module that is not part of this model: a `DataModel` stands for them.
 */
module LoadData {
  import opened Wrappers
  import opened Rows
  import opened Schema
  import opened Batching
  import opened Destination

  /** `table2dataclass`: the registry of source tables the copy knows how to convert. */
  function Lookup(name: string): (r: Option<TableKind>)
    ensures r.Some? <==>
      name in ["genre", "genre_film_work", "person_film_work", "person", "film_work"]
    ensures r.Some? ==> TableName(r.value) == name
  {
    match name
    case "genre" => Some(GenreTable)
    case "genre_film_work" => Some(GenreFilmworkTable)
    case "person_film_work" => Some(PersonFilmworkTable)
    case "person" => Some(PersonTable)
    case "film_work" => Some(FilmworkTable)
    case _ => None
  }

  /** The registry's keys are exactly the schema's table names. */
  lemma RegistryMatchesSchema(k: TableKind)
    ensures Lookup(TableName(k)) == Some(k)
  {
    assert TableName(k) in ["genre", "genre_film_work", "person_film_work", "person", "film_work"];
  }

  datatype UploadSettings = UploadSettings(localdb: string, dbname: string, outputDbname: string,
                                           user: string, password: string, host: string,
                                           port: int, batchSize: int)

  /** `UploadSettings(...)` given only the fields without a default. */
  function Settings(localdb: string, dbname: string, outputDbname: string, user: string,
                    password: string): (s: UploadSettings)
    ensures s.host == "127.0.0.1" && s.port == 5432 && s.batchSize == 100
    ensures s.localdb == localdb && s.dbname == dbname && s.outputDbname == outputDbname
    ensures s.user == user && s.password == password
  {
    UploadSettings(localdb, dbname, outputDbname, user, password, "127.0.0.1", 5432, 100)
  }

  datatype ConnParam = Str(s: string) | Num(n: int)

  /** `get_psycopg_dict`: the connection keyword arguments, and nothing else of the settings. */
  function PsycopgDict(s: UploadSettings): (d: map<string, ConnParam>)
    ensures d.Keys == {"dbname", "user", "password", "host", "port"}
    ensures d["dbname"] == Str(s.dbname) && d["user"] == Str(s.user)
    ensures d["password"] == Str(s.password) && d["host"] == Str(s.host) && d["port"] == Num(s.port)
  {
    map["dbname" := Str(s.dbname), "user" := Str(s.user), "password" := Str(s.password),
        "host" := Str(s.host), "port" := Num(s.port)]
  }

  /**
   * Why a run stops: an SQLite error, a psycopg2 error, or a table name missing from the
   * registry (a `KeyError` nobody catches).
   */
  datatype RunError = SqliteError | PsycopgError | UnknownTable(name: string)

  /** The process exit status each error ends the run with. */
  function ExitCode(e: RunError): (code: int)
    ensures code != 0
    ensures code == 10 <==> e.SqliteError?
    ensures code == 11 <==> e.PsycopgError?
  {
    match e
    case SqliteError => 10
    case PsycopgError => 11
    case UnknownTable(_) => 1
  }

  /** The SQLite file: the table names `sqlite_master` lists, in its order, and each table's rows. */
  datatype Sqlite = Sqlite(master: seq<string>, tables: map<string, seq<Dict>>)

  /** A dataclass of the models module: `get_fields()` and `get_data()` of an instance built from a row. */
  datatype DataModel = DataModel(fields: seq<string>, getData: Dict -> Tuple)

  /** Every instance yields one value per field, and no field is named twice. */
  ghost predicate WellFormed(m: DataModel) {
    Distinct(m.fields) && forall d :: |m.getData(d)| == |m.fields|
  }

  /** The tuples of a table's rows, in row order. */
  function Convert(m: DataModel, rows: seq<Dict>): (r: seq<Tuple>)
    ensures |r| == |rows|
  {
    if rows == [] then [] else Convert(m, rows[..|rows| - 1]) + [m.getData(rows[|rows| - 1])]
  }

  /** Each tuple is the conversion of the row at the same position. */
  lemma {:induction false} ConvertAt(m: DataModel, rows: seq<Dict>, i: int)
    requires 0 <= i < |rows|
    ensures Convert(m, rows)[i] == m.getData(rows[i])
  {
    if i < |rows| - 1 {
      ConvertAt(m, rows[..|rows| - 1], i);
    }
  }

  /** The statement `upload_table` prepares for a table. */
  function InsertFor(m: DataModel, dbName: string, tableName: string): (stmt: InsertStatement)
    ensures stmt.target == QualifiedName(dbName, tableName)
    ensures stmt.columns == m.fields && stmt.placeholders == |m.fields|
  {
    InsertStatement(QualifiedName(dbName, tableName), m.fields, |m.fields|)
  }

  /** One `executemany` of `stmt` per batch, in batch order. */
  function FlushesOf(stmt: InsertStatement, bs: seq<seq<Tuple>>): (fl: seq<Flush>)
    ensures |fl| == |bs|
  {
    seq(|bs|, i requires 0 <= i < |bs| => Flush(stmt, bs[i]))
  }

  /** What `upload_table` sends for one table, or the SQLite error of reading a missing table. */
  function TableFlushes(src: Sqlite, m: DataModel, tableName: string, dbName: string, n: int)
    : Result<seq<Flush>, RunError>
  {
    if tableName !in src.tables then Err(SqliteError)
    else Ok(FlushesOf(InsertFor(m, dbName, tableName), Batches(Convert(m, src.tables[tableName]), n)))
  }

  /** The destination after `upload_table`, or the error that ends the run. */
  function Upload(catalog: Catalog, tables: Tables, src: Sqlite, m: DataModel, tableName: string,
                  dbName: string, n: int): (r: Result<Tables, RunError>)
    requires Provisioned(catalog, tables)
    ensures r.Ok? ==> Provisioned(catalog, r.value)
  {
    var fl :- TableFlushes(src, m, tableName, dbName, n);
    var after := Replay(catalog, tables, fl);
    if after.None? then Err(PsycopgError) else Ok(after.value)
  }

  /** The destination after every listed table is uploaded in order, or the first error. */
  function Load(catalog: Catalog, tables: Tables, src: Sqlite, models: TableKind -> DataModel,
                names: seq<string>, dbName: string, n: int): (r: Result<Tables, RunError>)
    requires Provisioned(catalog, tables)
    ensures r.Ok? ==> Provisioned(catalog, r.value)
  {
    if names == [] then Ok(tables)
    else
      var mid :- Load(catalog, tables, src, models, names[..|names| - 1], dbName, n);
      var name := names[|names| - 1];
      var kind := Lookup(name);
      if kind.None? then Err(UnknownTable(name))
      else Upload(catalog, mid, src, models(kind.value), name, dbName, n)
  }

  /** Every flush of a whole run, table after table in the listed order. */
  function RunLog(src: Sqlite, models: TableKind -> DataModel, names: seq<string>, dbName: string,
                  n: int): seq<Flush>
  {
    if names == [] then []
    else
      var name := names[|names| - 1];
      var kind := Lookup(name);
      var fl := if kind.None? then Err(UnknownTable(name))
                else TableFlushes(src, models(kind.value), name, dbName, n);
      RunLog(src, models, names[..|names| - 1], dbName, n) + (if fl.Ok? then fl.value else [])
  }

  /** The statement is one the server runs, whatever tuples it is given. */
  predicate StatementOk(catalog: Catalog, stmt: InsertStatement) {
    stmt.target in catalog && Distinct(stmt.columns) && stmt.placeholders == |stmt.columns|
  }

  /**
   * The server accepts every batch exactly when the statement is sound (or nothing is sent)
   * and every tuple sent fills the columns.
   */
  lemma {:induction false} FlushesAccepted(catalog: Catalog, stmt: InsertStatement, bs: seq<seq<Tuple>>)
    ensures AllAccepted(catalog, FlushesOf(stmt, bs)) <==>
      (bs != [] ==> StatementOk(catalog, stmt))
      && forall t :: t in Concat(bs) ==> |t| == stmt.placeholders
  {
    if bs != [] {
      FlushesAccepted(catalog, stmt, bs[1..]);
      assert Concat(bs) == bs[0] + Concat(bs[1..]);
      var fl := FlushesOf(stmt, bs);
      assert FlushesOf(stmt, bs[1..]) == fl[1..];
      if AllAccepted(catalog, fl) {
        assert Accepts(catalog, fl[0].stmt, fl[0].batch);
        assert AllAccepted(catalog, fl[1..]) by {
          forall i | 0 <= i < |fl[1..]| ensures fl[1..][i] == fl[i + 1] { }
        }
      }
      if (forall t :: t in Concat(bs) ==> |t| == stmt.placeholders) && StatementOk(catalog, stmt) {
        assert AllAccepted(catalog, fl) by {
          forall i | 0 <= i < |fl| ensures Accepts(catalog, fl[i].stmt, fl[i].batch) {
            if i > 0 {
              assert fl[i] == fl[1..][i - 1];
            }
          }
        }
      }
    }
  }

  /** `upload_table` on the connection `pg` (03_sqlite_to_postgres/load_data.py:91-125). */
  method UploadTable(src: Sqlite, pg: Postgres, m: DataModel, tableName: string, dbName: string,
                     n: int) returns (res: Result<(), RunError>)
    requires pg.Valid()
    modifies pg
    ensures pg.Valid()
    ensures pg.committed == old(pg.committed) && pg.commits == old(pg.commits)
    ensures var spec := Upload(pg.catalog, old(pg.tables), src, m, tableName, dbName, n);
      && (res.Ok? <==> spec.Ok?)
      && (res.Err? ==> res.error == spec.error)
      && (res.Ok? ==> pg.tables == spec.value)
    ensures res.Ok? ==> pg.log == old(pg.log) + TableFlushes(src, m, tableName, dbName, n).value
    ensures tableName !in src.tables ==> pg.tables == old(pg.tables) && pg.log == old(pg.log)
  {
    if tableName !in src.tables {
      return Err(SqliteError);
    }
    var rows := src.tables[tableName];
    var stmt := InsertFor(m, dbName, tableName);
    ghost var all := Convert(m, rows);
    ghost var t0, l0 := pg.tables, pg.log;
    ghost var sent: seq<seq<Tuple>> := [];
    ghost var done: seq<Tuple> := [];
    var batch: seq<Tuple> := [];
    var i := 0;
    while i < |rows|
      invariant 0 <= i <= |rows|
      invariant Progress(all, i, sent, done, batch, n)
      invariant n >= 1 ==> |batch| < n
      invariant pg.Valid() && Provisioned(pg.catalog, t0)
      invariant pg.committed == old(pg.committed) && pg.commits == old(pg.commits)
      invariant Sent(pg.catalog, t0, l0, stmt, sent, pg.tables, pg.log)
    {
      ConvertAt(m, rows, i);
      Extend(all, i, sent, done, batch, n);
      batch := batch + [m.getData(rows[i])];
      i := i + 1;
      if |batch| == n {
        var ok := SendBatch(pg, stmt, batch, t0, l0, sent);
        if !ok {
          Sending(all, i, sent, done, batch, n);
          RefusedUpload(pg.catalog, t0, src, m, tableName, dbName, n, done, batch);
          return Err(PsycopgError);
        }
        Flushed(all, i, sent, done, batch, n);
        sent, done, batch := sent + [batch], done + batch, [];
      }
    }
    Sending(all, i, sent, done, batch, n);
    if batch != [] {
      var ok := SendBatch(pg, stmt, batch, t0, l0, sent);
      if !ok {
        RefusedUpload(pg.catalog, t0, src, m, tableName, dbName, n, done, batch);
        return Err(PsycopgError);
      }
      Finished(all, sent, done, batch, n);
      sent := sent + [batch];
    } else {
      Finished(all, sent, done, batch, n);
    }
    AcceptedUpload(pg.catalog, t0, l0, src, m, tableName, dbName, n, sent, pg.tables, pg.log);
    return Ok(());
  }

  /** A refused batch of the table's rows makes the whole upload fail. */
  lemma RefusedUpload(catalog: Catalog, t0: Tables, src: Sqlite, m: DataModel, tableName: string,
                      dbName: string, n: int, done: seq<Tuple>, batch: seq<Tuple>)
    requires Provisioned(catalog, t0) && tableName in src.tables
    requires batch != [] && !Accepts(catalog, InsertFor(m, dbName, tableName), batch)
    requires done + batch <= Convert(m, src.tables[tableName])
    ensures Upload(catalog, t0, src, m, tableName, dbName, n) == Err(PsycopgError)
  {
    RefusedBatch(catalog, t0, InsertFor(m, dbName, tableName), Convert(m, src.tables[tableName]), n,
                 done, batch);
  }

  /** Having sent exactly the table's batches, the connection holds the upload's result. */
  lemma AcceptedUpload(catalog: Catalog, t0: Tables, l0: seq<Flush>, src: Sqlite, m: DataModel,
                       tableName: string, dbName: string, n: int, sent: seq<seq<Tuple>>,
                       tables: Tables, log: seq<Flush>)
    requires Provisioned(catalog, t0) && tableName in src.tables
    requires Sent(catalog, t0, l0, InsertFor(m, dbName, tableName), sent, tables, log)
    requires Concat(sent) == Convert(m, src.tables[tableName]) && WellSized(sent, n)
    ensures Upload(catalog, t0, src, m, tableName, dbName, n) == Ok(tables)
    ensures log == l0 + TableFlushes(src, m, tableName, dbName, n).value
  {
    BatchesUnique(Convert(m, src.tables[tableName]), n, sent);
  }

  /**
   * The loop's bookkeeping after `i` rows: the batches sent and the one being filled hold
   * exactly those rows' tuples in order, and every batch sent is full.
   */
  ghost predicate Progress<T>(all: seq<T>, i: int, sent: seq<seq<T>>, done: seq<T>, batch: seq<T>,
                              n: int) {
    && 0 <= i <= |all|
    && Concat(sent) == done && done + batch == all[..i]
    && (forall j :: 0 <= j < |sent| ==> |sent[j]| == n >= 1)
    && (n < 1 ==> sent == [])
  }

  lemma Extend<T>(all: seq<T>, i: int, sent: seq<seq<T>>, done: seq<T>, batch: seq<T>, n: int)
    requires Progress(all, i, sent, done, batch, n) && i < |all|
    ensures Progress(all, i + 1, sent, done, batch + [all[i]], n)
  {
    assert all[..i + 1] == all[..i] + [all[i]];
  }

  lemma Flushed<T>(all: seq<T>, i: int, sent: seq<seq<T>>, done: seq<T>, batch: seq<T>, n: int)
    requires Progress(all, i, sent, done, batch, n) && |batch| == n >= 1
    ensures Progress(all, i, sent + [batch], done + batch, [], n)
  {
    ConcatSnoc(sent, batch);
    var bs := sent + [batch];
    assert forall j :: 0 <= j < |sent| ==> bs[j] == sent[j];
  }

  /** The rows read so far, hence the batch being filled, come from the table in order. */
  lemma Sending<T>(all: seq<T>, i: int, sent: seq<seq<T>>, done: seq<T>, batch: seq<T>, n: int)
    requires Progress(all, i, sent, done, batch, n)
    ensures done + batch <= all
    ensures i == |all| ==> done + batch == all
  {
    assert all[..i] <= all;
  }

  /** Full batches and then a short remainder, if any, make a well-sized partition of the rows. */
  lemma Finished<T>(all: seq<T>, sent: seq<seq<T>>, done: seq<T>, batch: seq<T>, n: int)
    requires Progress(all, |all|, sent, done, batch, n) && (n >= 1 ==> |batch| < n)
    ensures var bs := if batch == [] then sent else sent + [batch];
      Concat(bs) == all && WellSized(bs, n)
  {
    assert all[..|all|] == all;
    if batch == [] {
      assert done + batch == done;
    } else {
      ConcatSnoc(sent, batch);
      var bs := sent + [batch];
      assert forall j :: 0 <= j < |sent| ==> bs[j] == sent[j];
    }
  }

  /** The connection holds what replaying one flush per sent batch gives, and has logged them. */
  ghost predicate Sent(catalog: Catalog, t0: Tables, l0: seq<Flush>, stmt: InsertStatement,
                       sent: seq<seq<Tuple>>, tables: Tables, log: seq<Flush>)
    requires Provisioned(catalog, t0)
  {
    Replay(catalog, t0, FlushesOf(stmt, sent)) == Some(tables) && log == l0 + FlushesOf(stmt, sent)
  }

  /**
   * The `executemany` of the prepared statement that `upload_table` runs on a full batch and
   * on the remainder: an accepted batch extends what has been sent by one flush.
   */
  method SendBatch(pg: Postgres, stmt: InsertStatement, batch: seq<Tuple>, ghost t0: Tables,
                   ghost l0: seq<Flush>, ghost sent: seq<seq<Tuple>>) returns (ok: bool)
    requires pg.Valid() && Provisioned(pg.catalog, t0)
    requires Sent(pg.catalog, t0, l0, stmt, sent, pg.tables, pg.log)
    modifies pg
    ensures pg.Valid()
    ensures pg.committed == old(pg.committed) && pg.commits == old(pg.commits)
    ensures ok == Accepts(pg.catalog, stmt, batch)
    ensures ok ==> Sent(pg.catalog, t0, l0, stmt, sent + [batch], pg.tables, pg.log)
  {
    ok := pg.ExecuteMany(stmt, batch);
    if ok {
      SentOneMore(pg.catalog, t0, stmt, sent, batch);
    }
  }

  lemma ConcatSnoc<T>(bs: seq<seq<T>>, b: seq<T>)
    ensures Concat(bs + [b]) == Concat(bs) + b
  {
    ConcatAppend(bs, [b]);
    assert [b][1..] == [];
    assert Concat([b]) == b + Concat([b][1..]);
  }

  /** One more accepted flush extends the replayed log by it. */
  lemma SentOneMore(catalog: Catalog, tables: Tables, stmt: InsertStatement, sent: seq<seq<Tuple>>,
                    batch: seq<Tuple>)
    requires Provisioned(catalog, tables)
    ensures FlushesOf(stmt, sent + [batch]) == FlushesOf(stmt, sent) + [Flush(stmt, batch)]
    ensures var mid := Replay(catalog, tables, FlushesOf(stmt, sent));
      mid.Some? ==>
        Replay(catalog, tables, FlushesOf(stmt, sent + [batch]))
          == Execute(catalog, mid.value, Flush(stmt, batch))
  {
    var fl := FlushesOf(stmt, sent + [batch]);
    assert fl == FlushesOf(stmt, sent) + [Flush(stmt, batch)];
    assert fl[..|fl| - 1] == FlushesOf(stmt, sent);
  }

  /** A batch the server refuses means the whole table's flushes cannot all be accepted. */
  lemma RefusedBatch(catalog: Catalog, tables: Tables, stmt: InsertStatement, all: seq<Tuple>,
                     n: int, done: seq<Tuple>, batch: seq<Tuple>)
    requires Provisioned(catalog, tables)
    requires batch != [] && !Accepts(catalog, stmt, batch)
    requires done + batch <= all
    ensures Replay(catalog, tables, FlushesOf(stmt, Batches(all, n))).None?
  {
    var bs := Batches(all, n);
    ConcatBatches(all, n);
    FlushesAccepted(catalog, stmt, bs);
    ReplayDefined(catalog, tables, FlushesOf(stmt, bs));
    assert all != [] by {
      assert |all| >= |done + batch| >= 1;
    }
    if StatementOk(catalog, stmt) {
      var i :| 0 <= i < |batch| && |batch[i]| != stmt.placeholders;
      assert batch[i] == all[|done| + i];
      assert batch[i] in Concat(bs);
    }
  }

  /**
   * `load_from_sqlite` (03_sqlite_to_postgres/load_data.py:128-148) once both connections are
   * open: upload every table SQLite lists, in its order, then commit once.
   */
  method LoadFromSqlite(dsl: UploadSettings, src: Sqlite, pg: Postgres,
                        models: TableKind -> DataModel) returns (res: Result<(), RunError>)
    requires pg.Valid()
    modifies pg
    ensures pg.Valid()
    ensures var spec := Load(pg.catalog, old(pg.tables), src, models, src.master, dsl.outputDbname,
                             dsl.batchSize);
      && (res.Ok? <==> spec.Ok?)
      && (res.Err? ==> res.error == spec.error)
      && (res.Ok? ==> pg.tables == spec.value)
    ensures res.Ok? ==> pg.committed == pg.tables && pg.commits == old(pg.commits) + 1
    ensures res.Ok? ==>
      pg.log == old(pg.log) + RunLog(src, models, src.master, dsl.outputDbname, dsl.batchSize)
    ensures res.Err? ==> pg.committed == old(pg.committed) && pg.commits == old(pg.commits)
  {
    ghost var t0, l0 := pg.tables, pg.log;
    var names := src.master;
    var i := 0;
    while i < |names|
      invariant 0 <= i <= |names|
      invariant pg.Valid() && Provisioned(pg.catalog, t0)
      invariant pg.committed == old(pg.committed) && pg.commits == old(pg.commits)
      invariant Load(pg.catalog, t0, src, models, names[..i], dsl.outputDbname, dsl.batchSize)
                  == Ok(pg.tables)
      invariant pg.log == l0 + RunLog(src, models, names[..i], dsl.outputDbname, dsl.batchSize)
    {
      var r := LoadListed(src, pg, models, names, i, dsl.outputDbname, dsl.batchSize, t0, l0);
      if r.Err? {
        LoadStops(pg.catalog, t0, src, models, names, i + 1, dsl.outputDbname, dsl.batchSize);
        return Err(r.error);
      }
      i := i + 1;
    }
    assert names[..i] == names;
    pg.Commit();
    return Ok(());
  }

  /** One iteration of the loop of `load_from_sqlite`: look the table up, then upload it. */
  method LoadListed(src: Sqlite, pg: Postgres, models: TableKind -> DataModel, names: seq<string>,
                    i: int, dbName: string, n: int, ghost t0: Tables, ghost l0: seq<Flush>)
    returns (res: Result<(), RunError>)
    requires pg.Valid() && Provisioned(pg.catalog, t0) && 0 <= i < |names|
    requires Load(pg.catalog, t0, src, models, names[..i], dbName, n) == Ok(pg.tables)
    requires pg.log == l0 + RunLog(src, models, names[..i], dbName, n)
    modifies pg
    ensures pg.Valid()
    ensures pg.committed == old(pg.committed) && pg.commits == old(pg.commits)
    ensures res.Ok? ==> Load(pg.catalog, t0, src, models, names[..i + 1], dbName, n) == Ok(pg.tables)
    ensures res.Ok? ==> pg.log == l0 + RunLog(src, models, names[..i + 1], dbName, n)
    ensures res.Err? ==> Load(pg.catalog, t0, src, models, names[..i + 1], dbName, n) == Err(res.error)
  {
    var kind := Lookup(names[i]);
    if kind.None? {
      LoadUnknown(pg.catalog, t0, src, models, names, i, dbName, n);
      return Err(UnknownTable(names[i]));
    }
    ghost var mid, midLog := pg.tables, pg.log;
    res := UploadTable(src, pg, models(kind.value), names[i], dbName, n);
    ListedOutcome(pg.catalog, t0, l0, src, models, names, i, kind.value, dbName, n, mid, midLog, res,
                  pg.tables, pg.log);
  }

  /** What one upload's outcome makes of the run so far. */
  lemma ListedOutcome(catalog: Catalog, t0: Tables, l0: seq<Flush>, src: Sqlite,
                      models: TableKind -> DataModel, names: seq<string>, i: int, k: TableKind,
                      dbName: string, n: int, mid: Tables, midLog: seq<Flush>,
                      res: Result<(), RunError>, tables: Tables, log: seq<Flush>)
    requires Provisioned(catalog, t0) && 0 <= i < |names| && Lookup(names[i]) == Some(k)
    requires Load(catalog, t0, src, models, names[..i], dbName, n) == Ok(mid)
    requires midLog == l0 + RunLog(src, models, names[..i], dbName, n)
    requires var spec := Upload(catalog, mid, src, models(k), names[i], dbName, n);
      && (res.Ok? <==> spec.Ok?)
      && (res.Err? ==> res.error == spec.error)
      && (res.Ok? ==> tables == spec.value)
    requires res.Ok? ==> log == midLog + TableFlushes(src, models(k), names[i], dbName, n).value
    ensures res.Ok? ==> Load(catalog, t0, src, models, names[..i + 1], dbName, n) == Ok(tables)
    ensures res.Ok? ==> log == l0 + RunLog(src, models, names[..i + 1], dbName, n)
    ensures res.Err? ==> Load(catalog, t0, src, models, names[..i + 1], dbName, n) == Err(res.error)
  {
    LoadStep(catalog, t0, src, models, names, i, k, dbName, n);
    if res.Ok? {
      var fl := TableFlushes(src, models(k), names[i], dbName, n).value;
      var before := RunLog(src, models, names[..i], dbName, n);
      assert RunLog(src, models, names[..i + 1], dbName, n) == before + fl;
      assert log == (l0 + before) + fl;
      AppendAssoc(l0, before, fl);
    }
  }

  lemma AppendAssoc(a: seq<Flush>, b: seq<Flush>, c: seq<Flush>)
    ensures (a + b) + c == a + (b + c)
  {
  }

  /** A listed table the registry does not know ends the run with its name. */
  lemma LoadUnknown(catalog: Catalog, tables: Tables, src: Sqlite, models: TableKind -> DataModel,
                    names: seq<string>, i: int, dbName: string, n: int)
    requires Provisioned(catalog, tables) && 0 <= i < |names| && Lookup(names[i]).None?
    requires Load(catalog, tables, src, models, names[..i], dbName, n).Ok?
    ensures Load(catalog, tables, src, models, names[..i + 1], dbName, n) == Err(UnknownTable(names[i]))
  {
    assert names[..i + 1][..i] == names[..i];
  }

  /** A registered table is uploaded after the tables before it, and its flushes follow theirs. */
  lemma LoadStep(catalog: Catalog, tables: Tables, src: Sqlite, models: TableKind -> DataModel,
                 names: seq<string>, i: int, k: TableKind, dbName: string, n: int)
    requires Provisioned(catalog, tables) && 0 <= i < |names| && Lookup(names[i]) == Some(k)
    requires Load(catalog, tables, src, models, names[..i], dbName, n).Ok?
    ensures var mid := Load(catalog, tables, src, models, names[..i], dbName, n).value;
      var up := Upload(catalog, mid, src, models(k), names[i], dbName, n);
      && Load(catalog, tables, src, models, names[..i + 1], dbName, n) == up
      && (up.Ok? ==> RunLog(src, models, names[..i + 1], dbName, n)
                       == RunLog(src, models, names[..i], dbName, n)
                          + TableFlushes(src, models(k), names[i], dbName, n).value)
  {
    assert names[..i + 1][..i] == names[..i];
  }

  /** The first failing table ends the run: later tables are never reached. */
  lemma {:induction false} LoadStops(catalog: Catalog, tables: Tables, src: Sqlite,
                                     models: TableKind -> DataModel, names: seq<string>, k: int,
                                     dbName: string, n: int)
    requires Provisioned(catalog, tables) && 0 <= k <= |names|
    requires Load(catalog, tables, src, models, names[..k], dbName, n).Err?
    ensures Load(catalog, tables, src, models, names, dbName, n)
              == Load(catalog, tables, src, models, names[..k], dbName, n)
    decreases |names|
  {
    if k < |names| {
      var init := names[..|names| - 1];
      assert init[..k] == names[..k];
      LoadStops(catalog, tables, src, models, init, k, dbName, n);
    } else {
      assert names[..k] == names;
    }
  }

  /** Every listed table is one the registry knows and SQLite has. */
  predicate Readable(src: Sqlite, names: seq<string>) {
    forall i :: 0 <= i < |names| ==> Lookup(names[i]).Some? && names[i] in src.tables
  }

  lemma ReadableSnoc(src: Sqlite, names: seq<string>)
    requires names != []
    ensures Readable(src, names) <==>
      Readable(src, names[..|names| - 1]) && Lookup(names[|names| - 1]).Some?
      && names[|names| - 1] in src.tables
  {
    var init := names[..|names| - 1];
    assert forall i :: 0 <= i < |init| ==> init[i] == names[i];
  }

  lemma AllAcceptedAppend(catalog: Catalog, a: seq<Flush>, b: seq<Flush>)
    ensures AllAccepted(catalog, a + b) <==> AllAccepted(catalog, a) && AllAccepted(catalog, b)
  {
    var ab := a + b;
    assert forall i :: 0 <= i < |a| ==> ab[i] == a[i];
    assert forall i :: 0 <= i < |b| ==> ab[|a| + i] == b[i];
  }

  /**
   * A run succeeds exactly when every listed table is registered and present in SQLite and
   * the server accepts every flush; what it leaves is the replay of all of them in order.
   */
  lemma {:induction false} LoadReplays(catalog: Catalog, tables: Tables, src: Sqlite,
                                       models: TableKind -> DataModel, names: seq<string>,
                                       dbName: string, n: int)
    requires Provisioned(catalog, tables)
    ensures var r := Load(catalog, tables, src, models, names, dbName, n);
      var log := RunLog(src, models, names, dbName, n);
      && (r.Ok? <==> Readable(src, names) && AllAccepted(catalog, log))
      && (r.Ok? ==> Replay(catalog, tables, log) == Some(r.value))
  {
    if names != [] {
      var init, name := names[..|names| - 1], names[|names| - 1];
      LoadReplays(catalog, tables, src, models, init, dbName, n);
      ReadableSnoc(src, names);
      var initLog := RunLog(src, models, init, dbName, n);
      var kind := Lookup(name);
      var fl := if kind.None? then Err(UnknownTable(name))
                else TableFlushes(src, models(kind.value), name, dbName, n);
      var rest := if fl.Ok? then fl.value else [];
      assert RunLog(src, models, names, dbName, n) == initLog + rest;
      AllAcceptedAppend(catalog, initLog, rest);
      var before := Load(catalog, tables, src, models, init, dbName, n);
      if before.Ok? && kind.Some? && name in src.tables {
        ReplayAppend(catalog, tables, initLog, rest);
        ReplayDefined(catalog, before.value, rest);
      }
    }
  }

  /**
   * Running the copy a second time against what the first run left changes nothing and
   * succeeds again, provided every row carries a full unique key of its table.
   */
  lemma LoadIdempotent(catalog: Catalog, tables: Tables, src: Sqlite,
                       models: TableKind -> DataModel, names: seq<string>, dbName: string, n: int)
    requires Provisioned(catalog, tables)
    requires Load(catalog, tables, src, models, names, dbName, n).Ok?
    requires KeyedLog(catalog, RunLog(src, models, names, dbName, n))
    ensures var once := Load(catalog, tables, src, models, names, dbName, n).value;
      Load(catalog, once, src, models, names, dbName, n) == Ok(once)
  {
    var once := Load(catalog, tables, src, models, names, dbName, n).value;
    LoadReplays(catalog, tables, src, models, names, dbName, n);
    LoadReplays(catalog, once, src, models, names, dbName, n);
    ReplayIdempotent(catalog, tables, RunLog(src, models, names, dbName, n));
  }

  /**
   * The destination database: the five tables of schema `content`, each with its primary key
   * and the unique constraints the migration adds.
   */
  function ContentCatalog(): (c: Catalog)
    ensures forall k :: QualifiedName(SCHEMA, TableName(k)) in c
    ensures forall k :: c[QualifiedName(SCHEMA, TableName(k))] == UniqueColumns(k)
    ensures forall q :: q in c ==> q.schema == SCHEMA && Lookup(q.table).Some?
  {
    map[QualifiedName(SCHEMA, TableName(GenreTable)) := UniqueColumns(GenreTable),
        QualifiedName(SCHEMA, TableName(PersonTable)) := UniqueColumns(PersonTable),
        QualifiedName(SCHEMA, TableName(FilmworkTable)) := UniqueColumns(FilmworkTable),
        QualifiedName(SCHEMA, TableName(GenreFilmworkTable)) := UniqueColumns(GenreFilmworkTable),
        QualifiedName(SCHEMA, TableName(PersonFilmworkTable)) := UniqueColumns(PersonFilmworkTable)]
  }

  /** The tuple, bound to `fields`, has a non-NULL `id`. */
  predicate IdentifiedTuple(fields: seq<string>, t: Tuple) {
    |t| == |fields| && Distinct(fields) && "id" in fields && Zip(fields, t)["id"] != Null
  }

  /** Every row of every registered table SQLite holds converts to a tuple with a non-NULL `id`. */
  ghost predicate IdsPresent(src: Sqlite, models: TableKind -> DataModel) {
    forall k, j :: TableName(k) in src.tables && 0 <= j < |src.tables[TableName(k)]| ==>
      IdentifiedTuple(models(k).fields, models(k).getData(src.tables[TableName(k)][j]))
  }

  /** A tuple with a non-NULL `id` binds to a row that carries the primary key of its table. */
  lemma IdentifiedKeyed(k: TableKind, fields: seq<string>, t: Tuple)
    requires IdentifiedTuple(fields, t)
    ensures Keyed(Zip(fields, t), UniqueColumns(k))
  {
    assert Agree(Zip(fields, t), Zip(fields, t), ["id"]);
  }

  /** Every tuple `upload_table` sends for a table is the conversion of one of its rows. */
  lemma SentTupleConverted(m: DataModel, rows: seq<Dict>, n: int, i: int, k: int)
    requires var bs := Batches(Convert(m, rows), n); 0 <= i < |bs| && 0 <= k < |bs[i]|
    ensures exists j :: 0 <= j < |rows| && Batches(Convert(m, rows), n)[i][k] == m.getData(rows[j])
  {
    var tuples := Convert(m, rows);
    var bs := Batches(tuples, n);
    ConcatBatches(tuples, n);
    ConcatHolds(bs, i, k);
    var j :| 0 <= j < |tuples| && tuples[j] == bs[i][k];
    ConvertAt(m, rows, j);
  }

  /** On the `content` database, every flush of one registered table is accepted and keyed. */
  lemma ContentTableKeyed(src: Sqlite, models: TableKind -> DataModel, k: TableKind, n: int)
    requires WellFormed(models(k)) && IdsPresent(src, models)
    requires TableName(k) in src.tables
    ensures var fl := TableFlushes(src, models(k), TableName(k), SCHEMA, n);
      fl.Ok? && KeyedLog(ContentCatalog(), fl.value)
  {
    var m, name, catalog := models(k), TableName(k), ContentCatalog();
    var rows := src.tables[name];
    var stmt := InsertFor(m, SCHEMA, name);
    var bs := Batches(Convert(m, rows), n);
    var fl := FlushesOf(stmt, bs);
    assert TableFlushes(src, m, name, SCHEMA, n) == Ok(fl);
    forall i | 0 <= i < |fl|
      ensures Accepts(catalog, fl[i].stmt, fl[i].batch)
      ensures forall r :: 0 <= r < |bs[i]| ==>
        Keyed(RowsOf(catalog, stmt, bs[i])[r], catalog[stmt.target])
    {
      forall r | 0 <= r < |bs[i]|
        ensures IdentifiedTuple(m.fields, bs[i][r])
      {
        SentTupleConverted(m, rows, n, i, r);
      }
      assert Accepts(catalog, stmt, bs[i]);
      forall r | 0 <= r < |bs[i]|
        ensures Keyed(RowsOf(catalog, stmt, bs[i])[r], catalog[stmt.target])
      {
        IdentifiedKeyed(k, m.fields, bs[i][r]);
      }
    }
  }

  /**
   * On the `content` database, with well-formed models and every row identified, every
   * flush of a run is accepted and every row it sends carries its table's primary key.
   */
  lemma {:induction false} ContentRunKeyed(src: Sqlite, models: TableKind -> DataModel,
                                           names: seq<string>, n: int)
    requires forall k :: WellFormed(models(k))
    requires IdsPresent(src, models)
    ensures KeyedLog(ContentCatalog(), RunLog(src, models, names, SCHEMA, n))
  {
    if names != [] {
      var init, name := names[..|names| - 1], names[|names| - 1];
      ContentRunKeyed(src, models, init, n);
      var kind := Lookup(name);
      var initLog := RunLog(src, models, init, SCHEMA, n);
      if kind.Some? && name in src.tables {
        ContentTableKeyed(src, models, kind.value, n);
        var rest := TableFlushes(src, models(kind.value), name, SCHEMA, n).value;
        assert RunLog(src, models, names, SCHEMA, n) == initLog + rest;
        KeyedLogAppend(ContentCatalog(), initLog, rest);
      } else {
        assert RunLog(src, models, names, SCHEMA, n) == initLog + [];
      }
    }
  }

  /**
   * On the `content` database, with well-formed models and every row identified, the server
   * refuses nothing: a run fails only on a table the registry or SQLite lacks.
   */
  lemma ContentLoadSucceeds(tables: Tables, src: Sqlite, models: TableKind -> DataModel,
                            names: seq<string>, n: int)
    requires Provisioned(ContentCatalog(), tables)
    requires forall k :: WellFormed(models(k))
    requires IdsPresent(src, models)
    ensures Load(ContentCatalog(), tables, src, models, names, SCHEMA, n).Ok? <==> Readable(src, names)
  {
    var log := RunLog(src, models, names, SCHEMA, n);
    ContentRunKeyed(src, models, names, n);
    assert AllAccepted(ContentCatalog(), log);
    LoadReplays(ContentCatalog(), tables, src, models, names, SCHEMA, n);
  }

  /**
   * On the `content` database, with well-formed models and every row identified, running
   * the copy a second time over what a successful run left succeeds and changes nothing.
   */
  lemma ContentLoadIdempotent(tables: Tables, src: Sqlite, models: TableKind -> DataModel,
                              names: seq<string>, n: int)
    requires Provisioned(ContentCatalog(), tables)
    requires forall k :: WellFormed(models(k))
    requires IdsPresent(src, models)
    requires Load(ContentCatalog(), tables, src, models, names, SCHEMA, n).Ok?
    ensures var once := Load(ContentCatalog(), tables, src, models, names, SCHEMA, n).value;
      Load(ContentCatalog(), once, src, models, names, SCHEMA, n) == Ok(once)
  {
    ContentRunKeyed(src, models, names, n);
    LoadIdempotent(ContentCatalog(), tables, src, models, names, SCHEMA, n);
  }

  /** Sending batches one after another has the effect of sending all their tuples at once. */
  lemma {:induction false} ReplayAsOne(catalog: Catalog, tables: Tables, stmt: InsertStatement,
                                       bs: seq<seq<Tuple>>)
    requires Provisioned(catalog, tables) && bs != []
    ensures Replay(catalog, tables, FlushesOf(stmt, bs))
              == Execute(catalog, tables, Flush(stmt, Concat(bs)))
    decreases |bs|
  {
    var fl := FlushesOf(stmt, bs);
    var init, last := bs[..|bs| - 1], bs[|bs| - 1];
    assert fl[..|fl| - 1] == FlushesOf(stmt, init);
    ConcatSnoc(init, last);
    assert init + [last] == bs;
    if init == [] {
      assert FlushesOf(stmt, init) == [];
      assert Concat(bs) == last;
    } else {
      ReplayAsOne(catalog, tables, stmt, init);
      ExecuteAppend(catalog, tables, stmt, Concat(init), last);
    }
  }

  /** Accepting two batches one after another is accepting their concatenation. */
  lemma AcceptsAppend(catalog: Catalog, stmt: InsertStatement, a: seq<Tuple>, b: seq<Tuple>)
    ensures Accepts(catalog, stmt, a + b) <==> Accepts(catalog, stmt, a) && Accepts(catalog, stmt, b)
  {
    var ab := a + b;
    assert forall i :: 0 <= i < |a| ==> ab[i] == a[i];
    assert forall i :: 0 <= i < |b| ==> ab[|a| + i] == b[i];
  }

  /** Executing `a` and then `b` is executing `a + b`. */
  lemma ExecuteAppend(catalog: Catalog, tables: Tables, stmt: InsertStatement, a: seq<Tuple>,
                      b: seq<Tuple>)
    requires Provisioned(catalog, tables)
    ensures var mid := Execute(catalog, tables, Flush(stmt, a));
      (if mid.None? then None else Execute(catalog, mid.value, Flush(stmt, b)))
        == Execute(catalog, tables, Flush(stmt, a + b))
  {
    AcceptsAppend(catalog, stmt, a, b);
    if Accepts(catalog, stmt, a + b) {
      var q := stmt.target;
      var r1, r2 := RowsOf(catalog, stmt, a), RowsOf(catalog, stmt, b);
      assert RowsOf(catalog, stmt, a + b) == r1 + r2;
      InsertAllAppend(tables[q], r1, r2, catalog[q]);
      var x := InsertAll(tables[q], r1, catalog[q]);
      var mid := tables[q := x];
      assert Execute(catalog, tables, Flush(stmt, a)) == Some(mid);
      assert mid[q] == x;
      assert mid[q := InsertAll(x, r2, catalog[q])] == tables[q := InsertAll(x, r2, catalog[q])];
    }
  }

  /**
   * Once its table is read, an upload has the effect of one `executemany` of every converted
   * row, whatever the batch size.
   */
  lemma UploadAsOne(catalog: Catalog, tables: Tables, src: Sqlite, m: DataModel, tableName: string,
                    dbName: string, n: int)
    requires Provisioned(catalog, tables)
    requires tableName in src.tables && src.tables[tableName] != []
    ensures var one := Execute(catalog, tables,
                               Flush(InsertFor(m, dbName, tableName), Convert(m, src.tables[tableName])));
      Upload(catalog, tables, src, m, tableName, dbName, n)
        == if one.None? then Err(PsycopgError) else Ok(one.value)
  {
    var all := Convert(m, src.tables[tableName]);
    ConcatBatches(all, n);
    assert Batches(all, n) != [];
    ReplayAsOne(catalog, tables, InsertFor(m, dbName, tableName), Batches(all, n));
  }

  /** The batch size decides how rows are grouped into `executemany` calls, never the outcome. */
  lemma BatchSizeIrrelevant(catalog: Catalog, tables: Tables, src: Sqlite, m: DataModel,
                            tableName: string, dbName: string, n1: int, n2: int)
    requires Provisioned(catalog, tables)
    ensures Upload(catalog, tables, src, m, tableName, dbName, n1)
              == Upload(catalog, tables, src, m, tableName, dbName, n2)
  {
    if tableName in src.tables {
      if src.tables[tableName] == [] {
        assert Convert(m, src.tables[tableName]) == [];
      } else {
        UploadAsOne(catalog, tables, src, m, tableName, dbName, n1);
        UploadAsOne(catalog, tables, src, m, tableName, dbName, n2);
      }
    }
  }

  /**
   * A model whose instances fill its distinct fields, copied into a table that exists, is
   * always accepted: the upload of a table SQLite has never fails on the server side.
   */
  lemma UploadAccepted(catalog: Catalog, tables: Tables, src: Sqlite, m: DataModel,
                       tableName: string, dbName: string, n: int)
    requires Provisioned(catalog, tables) && WellFormed(m)
    requires QualifiedName(dbName, tableName) in catalog && tableName in src.tables
    ensures Upload(catalog, tables, src, m, tableName, dbName, n).Ok?
  {
    var rows := src.tables[tableName];
    var all := Convert(m, rows);
    var stmt := InsertFor(m, dbName, tableName);
    var bs := Batches(all, n);
    ConcatBatches(all, n);
    forall t | t in Concat(bs) ensures |t| == stmt.placeholders {
      var i :| 0 <= i < |all| && all[i] == t;
      ConvertAt(m, rows, i);
    }
    FlushesAccepted(catalog, stmt, bs);
    ReplayDefined(catalog, tables, FlushesOf(stmt, bs));
  }
}
