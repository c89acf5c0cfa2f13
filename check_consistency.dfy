/**
 * The consistency check run after a copy (03_sqlite_to_postgres/tests/check_consistency.py):
 * for every table SQLite lists, read both sides, require equal row counts, index the SQLite
 * records by `id` (after parsing their `created_at`/`updated_at` text), and require every
 * PostgreSQL record (after renaming `created`/`modified`) to be found by id and to be equal.
 *
 * The dataclass built from a row, and its equality, belong to a models module that is not
 * part of this model: a `build` function from a row to `Some(record)`, or `None` when the
 * constructor rejects the row, stands for it, over any record type with equality.
 */
module CheckConsistency {
  import opened Wrappers
  import opened Timestamp
  import opened Rows
  import Schema
  import opened Destination
  import LoadData

  /** Why a check stops: each is an exception the script leaves uncaught. */
  datatype CheckError =
    | UnknownTable(name: string)           // `table2dataclass[table_name]` raises `KeyError`
    | SourceMissing(table: string)         // the SELECT on SQLite fails
    | DestMissing(table: string)           // the SELECT on PostgreSQL fails
    | CountMismatch(source: nat, dest: nat)
    | BadTimestamp(key: string)            // `strptime` rejects the stored text
    | BuildFailed                          // the dataclass constructor rejects the row
    | MissingId                            // the row has no `id`
    | UnknownId(id: Value)                 // `id2item[...]` raises `KeyError`
    | Mismatch(id: Value)                  // the two records differ

  /** The SQLite columns holding timestamps as text. */
  predicate IsStampKey(k: string) {
    k == "created_at" || k == "updated_at"
  }

  /** A timestamp text in the fixed format `%Y-%m-%d %H:%M:%S.%f+00`. */
  predicate ParsesAsStamp(v: Value) {
    v.Text? && Parse(v.s).Some?
  }

  /** One timestamp column parsed in place, if the row has it. */
  function ParseKey(row: Dict, key: string): Result<Dict, CheckError> {
    if key !in row then Ok(row)
    else if !ParsesAsStamp(row[key]) then Err(BadTimestamp(key))
    else Ok(row[key := Stamp(Parse(row[key].s).value)])
  }

  /**
   * The source side's rewrite of a row: `created_at` and `updated_at` become UTC instants,
   * everything else is kept; a timestamp that does not parse stops the check.
   */
  function NormalizeSource(row: Dict): (r: Result<Dict, CheckError>)
    ensures r.Ok? <==> forall k :: k in row && IsStampKey(k) ==> ParsesAsStamp(row[k])
    ensures r.Ok? ==> r.value.Keys == row.Keys
    ensures r.Ok? ==> forall k :: k in row ==>
      r.value[k] == if IsStampKey(k) then Stamp(Parse(row[k].s).value) else row[k]
    ensures r.Err? ==> r.error.BadTimestamp?
  {
    var created :- ParseKey(row, "created_at");
    ParseKey(created, "updated_at")
  }

  /** The inverse of `NormalizeSource`: instants under the timestamp keys written back as text. */
  function FormatStamps(row: Dict): (r: Dict)
    requires forall k :: k in row && IsStampKey(k) ==> row[k].Stamp? && Valid(row[k].t)
    ensures r.Keys == row.Keys
  {
    map k | k in row :: if IsStampKey(k) then Text(Format(row[k].t)) else row[k]
  }

  /** Writing a normalized row back gives the stored row again. */
  lemma FormatNormalized(row: Dict)
    requires NormalizeSource(row).Ok?
    ensures var n := NormalizeSource(row).value;
      (forall k :: k in n && IsStampKey(k) ==> n[k].Stamp? && Valid(n[k].t))
      && FormatStamps(n) == row
  {
    var n := NormalizeSource(row).value;
    forall k | k in n && IsStampKey(k)
      ensures n[k].Stamp? && Valid(n[k].t) && Text(Format(n[k].t)) == row[k]
    {
      FormatParse(row[k].s);
    }
  }

  /** A row whose timestamps are valid instants survives writing out and normalizing again. */
  lemma NormalizeFormatted(row: Dict)
    requires forall k :: k in row && IsStampKey(k) ==> row[k].Stamp? && Valid(row[k].t)
    ensures NormalizeSource(FormatStamps(row)) == Ok(row)
  {
    var f := FormatStamps(row);
    forall k | k in f && IsStampKey(k) ensures ParsesAsStamp(f[k]) && Parse(f[k].s) == Some(row[k].t) {
      ParseFormat(row[k].t);
    }
    var n := NormalizeSource(f).value;
    assert forall k :: k in row ==> n[k] == row[k];
    assert n == row;
  }

  /** `item_dict[to] = item_dict[from]; del item_dict[from]` when `from` is present. */
  function RenameKey(d: Dict, from: string, to: string): (r: Dict)
    requires from != to
    ensures from !in d ==> r == d
    ensures from in d ==> from !in r && to in r && r[to] == d[from]
    ensures forall k :: k != from && k != to ==> (k in r <==> k in d) && (k in r ==> r[k] == d[k])
  {
    if from in d then (d - {from})[to := d[from]] else d
  }

  /** The destination side's rewrite of a row: `created` and `modified` take the source's names. */
  function NormalizeDest(row: Dict): (r: Dict)
    ensures forall k :: k !in {"created", "modified", "created_at", "updated_at"} ==>
      (k in r <==> k in row) && (k in r ==> r[k] == row[k])
    ensures "created" !in r && "modified" !in r
    ensures "created" in row ==> "created_at" in r && r["created_at"] == row["created"]
    ensures "modified" in row ==> "updated_at" in r && r["updated_at"] == row["modified"]
    ensures "created" !in row ==>
      (("created_at" in r <==> "created_at" in row)
       && ("created_at" in r ==> r["created_at"] == row["created_at"]))
    ensures "modified" !in row ==>
      (("updated_at" in r <==> "updated_at" in row)
       && ("updated_at" in r ==> r["updated_at"] == row["updated_at"]))
  {
    RenameKey(RenameKey(row, "created", "created_at"), "modified", "updated_at")
  }

  /** The two renames touch different keys, so the order the keys are visited in does not matter. */
  lemma RenamesCommute(row: Dict)
    ensures NormalizeDest(row)
      == RenameKey(RenameKey(row, "modified", "updated_at"), "created", "created_at")
  {
  }

  /** The inverse renaming. */
  function RestoreDest(row: Dict): Dict {
    RenameKey(RenameKey(row, "created_at", "created"), "updated_at", "modified")
  }

  /** A PostgreSQL row without the source's names comes back unchanged from the round trip. */
  lemma RestoreNormalized(row: Dict)
    requires "created_at" !in row && "updated_at" !in row
    ensures RestoreDest(NormalizeDest(row)) == row
  {
  }

  /**
   * A stored entity's row, renamed, carries `created_at` with its creation instant, and
   * `updated_at` exactly when the entity has a `modified` field (the join tables do not);
   * the renaming loses nothing of the row.
   */
  lemma EntityRowRenamed(e: Schema.Entity)
    ensures var r := NormalizeDest(Schema.ToRow(e));
      && "created_at" in r && r["created_at"] == Schema.ToRow(e)["created"]
      && ("updated_at" in r <==>
            !(e.GenreFilmworkRecord? || e.PersonFilmworkRecord?))
      && RestoreDest(r) == Schema.ToRow(e)
  {
    var row := Schema.ToRow(e);
    assert "created" in row && "created_at" !in row && "updated_at" !in row;
    assert "modified" in row <==> !(e.GenreFilmworkRecord? || e.PersonFilmworkRecord?);
    RestoreNormalized(row);
  }

  /** One SQLite row as `(id, record)`: normalized, built, then its `id` read. */
  function SourceEntry<R>(row: Dict, build: Dict -> Option<R>): Result<(Value, R), CheckError> {
    var item :- NormalizeSource(row);
    var rec := build(item);
    if rec.None? then Err(BuildFailed)
    else if "id" !in row then Err(MissingId)
    else Ok((row["id"], rec.value))
  }

  /** `id2item`: the SQLite records by id, in row order, so a later row replaces an earlier one. */
  function Index<R>(rows: seq<Dict>, build: Dict -> Option<R>): Result<map<Value, R>, CheckError> {
    if rows == [] then Ok(map[])
    else
      var idx :- Index(rows[..|rows| - 1], build);
      var e :- SourceEntry(rows[|rows| - 1], build);
      Ok(idx[e.0 := e.1])
  }

  /** One PostgreSQL row as `(id, record)`: renamed, built, then its `id` read. */
  function DestEntry<R>(row: Dict, build: Dict -> Option<R>): Result<(Value, R), CheckError> {
    var item := NormalizeDest(row);
    var rec := build(item);
    if rec.None? then Err(BuildFailed)
    else if "id" !in item then Err(MissingId)
    else Ok((item["id"], rec.value))
  }

  /** The check of one PostgreSQL row against the index. */
  function Match<R(==)>(row: Dict, idx: map<Value, R>, build: Dict -> Option<R>): Result<(), CheckError> {
    var e :- DestEntry(row, build);
    if e.0 !in idx then Err(UnknownId(e.0))
    else if idx[e.0] != e.1 then Err(Mismatch(e.0))
    else Ok(())
  }

  /** Every PostgreSQL row in order, stopping at the first that fails. */
  function Compare<R(==)>(rows: seq<Dict>, idx: map<Value, R>, build: Dict -> Option<R>)
    : Result<(), CheckError>
  {
    if rows == [] then Ok(())
    else
      var _ :- Compare(rows[..|rows| - 1], idx, build);
      Match(rows[|rows| - 1], idx, build)
  }

  /** `check_tables` once both tables are read. */
  function CheckTable<R(==)>(src: seq<Dict>, dst: seq<Dict>, build: Dict -> Option<R>)
    : Result<(), CheckError>
  {
    if |src| != |dst| then Err(CountMismatch(|src|, |dst|))
    else
      var idx :- Index(src, build);
      Compare(dst, idx, build)
  }

  /** `check_tables` for one listed table, reading schema `content` on the PostgreSQL side. */
  function CheckOne<R(==)>(src: LoadData.Sqlite, dst: Tables, build: Dict -> Option<R>, name: string)
    : Result<(), CheckError>
  {
    var q := QualifiedName(Schema.SCHEMA, name);
    if name !in src.tables then Err(SourceMissing(name))
    else if q !in dst then Err(DestMissing(name))
    else CheckTable(src.tables[name], dst[q], build)
  }

  /** `check_data`: every table SQLite lists, in its order, stopping at the first failure. */
  function CheckAll<R(==)>(src: LoadData.Sqlite, dst: Tables, builds: Schema.TableKind -> (Dict -> Option<R>),
                           names: seq<string>): Result<(), CheckError>
  {
    if names == [] then Ok(())
    else
      var _ :- CheckAll(src, dst, builds, names[..|names| - 1]);
      CheckListed(src, dst, builds, names[|names| - 1])
  }

  /** One iteration of `check_data`: look the table up in the registry, then check it. */
  function CheckListed<R(==)>(src: LoadData.Sqlite, dst: Tables,
                              builds: Schema.TableKind -> (Dict -> Option<R>), name: string)
    : Result<(), CheckError>
  {
    var kind := LoadData.Lookup(name);
    if kind.None? then Err(UnknownTable(name)) else CheckOne(src, dst, builds(kind.value), name)
  }

  /** The ids of the rows that have one. */
  function IdSet(rows: seq<Dict>): set<Value> {
    set i | 0 <= i < |rows| && "id" in rows[i] :: rows[i]["id"]
  }

  /** Every row has an id and no two rows share one. */
  predicate DistinctIds(rows: seq<Dict>) {
    && (forall i :: 0 <= i < |rows| ==> "id" in rows[i])
    && (forall i, j :: 0 <= i < j < |rows| ==> rows[i]["id"] != rows[j]["id"])
  }

  /** Row `i` is the last one carrying its id. */
  predicate LastWithId(rows: seq<Dict>, i: int)
    requires 0 <= i < |rows| && "id" in rows[i]
  {
    forall j :: i < j < |rows| ==> "id" !in rows[j] || rows[j]["id"] != rows[i]["id"]
  }

  /** Indexing succeeds exactly when every row normalizes, builds and has an id. */
  lemma IndexDefined<R>(rows: seq<Dict>, build: Dict -> Option<R>)
    ensures Index(rows, build).Ok? <==> forall i :: 0 <= i < |rows| ==> SourceEntry(rows[i], build).Ok?
  {
    if Index(rows, build).Ok? {
      forall i | 0 <= i < |rows| ensures SourceEntry(rows[i], build).Ok? {
        IndexedEntry(rows, build, i);
      }
    }
    if forall i :: 0 <= i < |rows| ==> SourceEntry(rows[i], build).Ok? {
      EntriesIndexed(rows, build);
    }
  }

  /** Every row of a successful indexing gives an entry. */
  lemma {:induction false} IndexedEntry<R>(rows: seq<Dict>, build: Dict -> Option<R>, i: int)
    requires Index(rows, build).Ok? && 0 <= i < |rows|
    ensures SourceEntry(rows[i], build).Ok?
  {
    if i < |rows| - 1 {
      var init := rows[..|rows| - 1];
      assert init[i] == rows[i];
      IndexedEntry(init, build, i);
    }
  }

  /** Rows that all give entries index. */
  lemma {:induction false} EntriesIndexed<R>(rows: seq<Dict>, build: Dict -> Option<R>)
    requires forall i :: 0 <= i < |rows| ==> SourceEntry(rows[i], build).Ok?
    ensures Index(rows, build).Ok?
  {
    if rows != [] {
      var init := rows[..|rows| - 1];
      assert forall i :: 0 <= i < |init| ==> init[i] == rows[i];
      EntriesIndexed(init, build);
    }
  }

  /** The index holds exactly the rows' ids. */
  lemma {:induction false} IndexKeys<R>(rows: seq<Dict>, build: Dict -> Option<R>)
    requires Index(rows, build).Ok?
    ensures forall i :: 0 <= i < |rows| ==> "id" in rows[i]
    ensures Index(rows, build).value.Keys == IdSet(rows)
  {
    if rows != [] {
      var init, last := rows[..|rows| - 1], rows[|rows| - 1];
      IndexKeys(init, build);
      assert forall i :: 0 <= i < |init| ==> init[i] == rows[i];
      var e := SourceEntry(last, build).value;
      assert Index(rows, build).value == Index(init, build).value[e.0 := e.1];
      assert e.0 == last["id"];
      IdSetSnoc(rows);
    }
  }

  /** Each id maps to the record of the last row carrying it. */
  lemma IndexLastWins<R>(rows: seq<Dict>, build: Dict -> Option<R>)
    requires Index(rows, build).Ok?
    ensures forall i :: 0 <= i < |rows| ==> SourceEntry(rows[i], build).Ok?
    ensures forall i :: 0 <= i < |rows| && "id" in rows[i] && LastWithId(rows, i) ==>
      rows[i]["id"] in Index(rows, build).value
      && Index(rows, build).value[rows[i]["id"]] == SourceEntry(rows[i], build).value.1
  {
    IndexDefined(rows, build);
    forall i | 0 <= i < |rows| && "id" in rows[i] && LastWithId(rows, i)
      ensures rows[i]["id"] in Index(rows, build).value
      ensures Index(rows, build).value[rows[i]["id"]] == SourceEntry(rows[i], build).value.1
    {
      LastWins(rows, build, i);
    }
  }

  /** The record indexed under a row's id is that row's, when no later row carries the id. */
  lemma {:induction false} LastWins<R>(rows: seq<Dict>, build: Dict -> Option<R>, i: int)
    requires Index(rows, build).Ok? && 0 <= i < |rows| && "id" in rows[i] && LastWithId(rows, i)
    ensures SourceEntry(rows[i], build).Ok?
    ensures rows[i]["id"] in Index(rows, build).value
    ensures Index(rows, build).value[rows[i]["id"]] == SourceEntry(rows[i], build).value.1
  {
    var init, last := rows[..|rows| - 1], rows[|rows| - 1];
    var e := SourceEntry(last, build).value;
    assert Index(rows, build).value == Index(init, build).value[e.0 := e.1];
    if i < |rows| - 1 {
      assert init[i] == rows[i];
      assert LastWithId(init, i) by {
        forall j | i < j < |init| ensures init[j] == rows[j] { }
      }
      LastWins(init, build, i);
      assert rows[i]["id"] != last["id"];
    }
  }

  /** Every PostgreSQL row passes exactly when the comparison does. */
  lemma CompareAll<R>(rows: seq<Dict>, idx: map<Value, R>, build: Dict -> Option<R>)
    ensures Compare(rows, idx, build).Ok? <==> forall j :: 0 <= j < |rows| ==> Match(rows[j], idx, build).Ok?
  {
    if Compare(rows, idx, build).Ok? {
      forall j | 0 <= j < |rows| ensures Match(rows[j], idx, build).Ok? {
        ComparedMatch(rows, idx, build, j);
      }
    }
    if forall j :: 0 <= j < |rows| ==> Match(rows[j], idx, build).Ok? {
      MatchesCompared(rows, idx, build);
    }
  }

  /** Every row of a passing comparison matches. */
  lemma {:induction false} ComparedMatch<R>(rows: seq<Dict>, idx: map<Value, R>,
                                                build: Dict -> Option<R>, j: int)
    requires Compare(rows, idx, build).Ok? && 0 <= j < |rows|
    ensures Match(rows[j], idx, build).Ok?
  {
    if j < |rows| - 1 {
      var init := rows[..|rows| - 1];
      assert init[j] == rows[j];
      ComparedMatch(init, idx, build, j);
    }
  }

  /** Rows that all match pass the comparison. */
  lemma {:induction false} MatchesCompared<R>(rows: seq<Dict>, idx: map<Value, R>,
                                                  build: Dict -> Option<R>)
    requires forall j :: 0 <= j < |rows| ==> Match(rows[j], idx, build).Ok?
    ensures Compare(rows, idx, build).Ok?
  {
    if rows != [] {
      var init := rows[..|rows| - 1];
      assert forall j :: 0 <= j < |init| ==> init[j] == rows[j];
      MatchesCompared(init, idx, build);
    }
  }

  /**
   * A table passes exactly when the row counts agree, every SQLite row indexes, and every
   * PostgreSQL row is found by id with an equal record.
   */
  lemma CheckTablePasses<R>(src: seq<Dict>, dst: seq<Dict>, build: Dict -> Option<R>)
    ensures CheckTable(src, dst, build).Ok? <==>
      && |src| == |dst|
      && Index(src, build).Ok?
      && forall j :: 0 <= j < |dst| ==> Match(dst[j], Index(src, build).value, build).Ok?
  {
    if Index(src, build).Ok? {
      CompareAll(dst, Index(src, build).value, build);
    }
  }

  /** A row count check failure is reported as such, before any row is looked at. */
  lemma CountsChecked<R>(src: seq<Dict>, dst: seq<Dict>, build: Dict -> Option<R>)
    requires |src| != |dst|
    ensures CheckTable(src, dst, build) == Err(CountMismatch(|src|, |dst|))
  {
  }

  /** There are no more ids than rows, and exactly as many when they are distinct. */
  lemma {:induction false} IdSetSize(rows: seq<Dict>)
    requires forall i :: 0 <= i < |rows| ==> "id" in rows[i]
    ensures |IdSet(rows)| <= |rows|
    ensures |IdSet(rows)| == |rows| <==> DistinctIds(rows)
  {
    if rows != [] {
      var init, last := rows[..|rows| - 1], rows[|rows| - 1];
      assert forall i :: 0 <= i < |init| ==> init[i] == rows[i];
      IdSetSize(init);
      IdSetSnoc(rows);
      DistinctIdsSnoc(rows);
      if last["id"] in IdSet(init) {
        assert IdSet(rows) == IdSet(init);
      } else {
        assert |IdSet(rows)| == |IdSet(init)| + 1;
      }
    }
  }

  /** A row added at the end adds its id to the ids of the rows before it. */
  lemma IdSetSnoc(rows: seq<Dict>)
    requires rows != [] && "id" in rows[|rows| - 1]
    ensures IdSet(rows) == IdSet(rows[..|rows| - 1]) + {rows[|rows| - 1]["id"]}
  {
    var init := rows[..|rows| - 1];
    assert forall i :: 0 <= i < |init| ==> init[i] == rows[i];
  }

  /** Rows have distinct ids when the rows before the last do and the last id is new. */
  lemma DistinctIdsSnoc(rows: seq<Dict>)
    requires rows != [] && forall i :: 0 <= i < |rows| ==> "id" in rows[i]
    ensures DistinctIds(rows) <==>
      DistinctIds(rows[..|rows| - 1]) && rows[|rows| - 1]["id"] !in IdSet(rows[..|rows| - 1])
  {
    var init, last := rows[..|rows| - 1], rows[|rows| - 1];
    assert forall i :: 0 <= i < |init| ==> init[i] == rows[i];
    if last["id"] in IdSet(init) {
      var i :| 0 <= i < |init| && "id" in init[i] && init[i]["id"] == last["id"];
      assert rows[i]["id"] == rows[|rows| - 1]["id"];
    } else if DistinctIds(init) {
      forall i, j | 0 <= i < j < |rows| ensures rows[i]["id"] != rows[j]["id"] {
        if j == |rows| - 1 {
          assert rows[i]["id"] in IdSet(init);
        }
      }
    }
  }

  /**
   * When PostgreSQL's ids are distinct, a passing table holds exactly SQLite's records: the
   * SQLite ids are distinct too, both sides have the same ids, and each id carries the same
   * record on both sides.
   */
  lemma SameRecords<R>(src: seq<Dict>, dst: seq<Dict>, build: Dict -> Option<R>)
    requires CheckTable(src, dst, build) == Ok(())
    requires DistinctIds(dst)
    ensures DistinctIds(src)
    ensures IdSet(dst) == IdSet(src) == Index(src, build).value.Keys
    ensures forall j :: 0 <= j < |dst| ==>
      DestEntry(dst[j], build).Ok?
      && Index(src, build).value[dst[j]["id"]] == DestEntry(dst[j], build).value.1
    ensures forall i :: 0 <= i < |src| ==>
      SourceEntry(src[i], build).Ok?
      && Index(src, build).value[src[i]["id"]] == SourceEntry(src[i], build).value.1
  {
    CheckTablePasses(src, dst, build);
    var idx := Index(src, build).value;
    IndexKeys(src, build);
    IdSetSize(src);
    IdSetSize(dst);
    DestIdsIndexed(dst, idx, build);
    SubsetSize(IdSet(dst), idx.Keys);
    IndexLastWins(src, build);
    forall i | 0 <= i < |src| ensures LastWithId(src, i) { }
  }

  /** Every id of a passing PostgreSQL row is in the index, with an equal record. */
  lemma DestIdsIndexed<R>(dst: seq<Dict>, idx: map<Value, R>, build: Dict -> Option<R>)
    requires forall j :: 0 <= j < |dst| ==> Match(dst[j], idx, build).Ok?
    ensures IdSet(dst) <= idx.Keys
    ensures forall j :: 0 <= j < |dst| ==>
      DestEntry(dst[j], build).Ok? && "id" in dst[j] && dst[j]["id"] in idx
      && idx[dst[j]["id"]] == DestEntry(dst[j], build).value.1
  {
    forall j | 0 <= j < |dst|
      ensures DestEntry(dst[j], build).Ok? && "id" in dst[j] && dst[j]["id"] in idx
      && idx[dst[j]["id"]] == DestEntry(dst[j], build).value.1
    {
      assert Match(dst[j], idx, build).Ok?;
    }
  }

  /** A subset is no larger than its superset. */
  lemma {:induction false} SubsetCard<T>(a: set<T>, b: set<T>)
    requires a <= b
    ensures |a| <= |b|
    decreases b
  {
    if a != {} {
      var y :| y in a;
      SubsetCard(a - {y}, b - {y});
    }
  }

  /** A subset at least as large as its superset is the whole of it. */
  lemma SubsetSize<T>(a: set<T>, b: set<T>)
    requires a <= b && |a| >= |b|
    ensures a == b
  {
    if a != b {
      var x :| x in b && x !in a;
      SubsetCard(a, b - {x});
    }
  }

  /**
   * The whole check passes exactly when every listed table is registered and passes against
   * schema `content`.
   */
  lemma CheckAllPasses<R>(src: LoadData.Sqlite, dst: Tables,
                          builds: Schema.TableKind -> (Dict -> Option<R>), names: seq<string>)
    ensures CheckAll(src, dst, builds, names).Ok? <==>
      forall i :: 0 <= i < |names| ==> CheckListed(src, dst, builds, names[i]).Ok?
  {
    if CheckAll(src, dst, builds, names).Ok? {
      forall i | 0 <= i < |names| ensures CheckListed(src, dst, builds, names[i]).Ok? {
        PassedListed(src, dst, builds, names, i);
      }
    }
    if forall i :: 0 <= i < |names| ==> CheckListed(src, dst, builds, names[i]).Ok? {
      ListedPassed(src, dst, builds, names);
    }
  }

  /** Every table of a passing check passes on its own. */
  lemma {:induction false} PassedListed<R>(src: LoadData.Sqlite, dst: Tables,
                                               builds: Schema.TableKind -> (Dict -> Option<R>),
                                               names: seq<string>, i: int)
    requires CheckAll(src, dst, builds, names).Ok? && 0 <= i < |names|
    ensures CheckListed(src, dst, builds, names[i]).Ok?
  {
    CheckAllSplit(src, dst, builds, names);
    if i < |names| - 1 {
      var init := names[..|names| - 1];
      assert init[i] == names[i];
      PassedListed(src, dst, builds, init, i);
    }
  }

  /** When every listed table passes on its own, the whole check passes. */
  lemma {:induction false} ListedPassed<R>(src: LoadData.Sqlite, dst: Tables,
                                               builds: Schema.TableKind -> (Dict -> Option<R>),
                                               names: seq<string>)
    requires forall i :: 0 <= i < |names| ==> CheckListed(src, dst, builds, names[i]).Ok?
    ensures CheckAll(src, dst, builds, names).Ok?
  {
    if names != [] {
      var init := names[..|names| - 1];
      assert forall i :: 0 <= i < |init| ==> init[i] == names[i];
      ListedPassed(src, dst, builds, init);
      CheckAllSplit(src, dst, builds, names);
    }
  }

  /** The check of a non-empty list passes when its prefix and its last table both pass. */
  lemma CheckAllSplit<R>(src: LoadData.Sqlite, dst: Tables,
                         builds: Schema.TableKind -> (Dict -> Option<R>), names: seq<string>)
    requires names != []
    ensures CheckAll(src, dst, builds, names).Ok? <==>
      CheckAll(src, dst, builds, names[..|names| - 1]).Ok?
      && CheckListed(src, dst, builds, names[|names| - 1]).Ok?
  {
  }

  /** Indexing stops at the first row that fails. */
  lemma {:induction false} IndexStops<R>(rows: seq<Dict>, k: int, build: Dict -> Option<R>)
    requires 0 <= k <= |rows| && Index(rows[..k], build).Err?
    ensures Index(rows, build) == Index(rows[..k], build)
    decreases |rows|
  {
    if k < |rows| {
      var init := rows[..|rows| - 1];
      assert init[..k] == rows[..k];
      IndexStops(init, k, build);
    } else {
      assert rows[..k] == rows;
    }
  }

  /** Once the rows before `rows[j]` have matched, the comparison up to it is that row's match. */
  lemma CompareNext<R>(rows: seq<Dict>, idx: map<Value, R>, build: Dict -> Option<R>, j: int)
    requires 0 <= j < |rows| && Compare(rows[..j], idx, build) == Ok(())
    ensures Compare(rows[..j + 1], idx, build) == Match(rows[j], idx, build)
  {
    assert rows[..j + 1][..j] == rows[..j];
  }

  /** The comparison stops at the first row that fails. */
  lemma {:induction false} CompareStops<R>(rows: seq<Dict>, k: int, idx: map<Value, R>,
                                                build: Dict -> Option<R>)
    requires 0 <= k <= |rows| && Compare(rows[..k], idx, build).Err?
    ensures Compare(rows, idx, build) == Compare(rows[..k], idx, build)
    decreases |rows|
  {
    if k < |rows| {
      var init := rows[..|rows| - 1];
      assert init[..k] == rows[..k];
      CompareStops(init, k, idx, build);
    } else {
      assert rows[..k] == rows;
    }
  }

  /** Once the tables before `names[i]` have passed, the check up to it is that table's. */
  lemma CheckAllNext<R>(src: LoadData.Sqlite, dst: Tables,
                        builds: Schema.TableKind -> (Dict -> Option<R>), names: seq<string>, i: int)
    requires 0 <= i < |names| && CheckAll(src, dst, builds, names[..i]) == Ok(())
    ensures CheckAll(src, dst, builds, names[..i + 1]) == CheckListed(src, dst, builds, names[i])
  {
    assert names[..i + 1][..i] == names[..i];
  }

  /** The check stops at the first table that fails. */
  lemma {:induction false} CheckAllStops<R>(src: LoadData.Sqlite, dst: Tables,
                                                 builds: Schema.TableKind -> (Dict -> Option<R>),
                                                 names: seq<string>, k: int)
    requires 0 <= k <= |names| && CheckAll(src, dst, builds, names[..k]).Err?
    ensures CheckAll(src, dst, builds, names) == CheckAll(src, dst, builds, names[..k])
    decreases |names|
  {
    if k < |names| {
      var init := names[..|names| - 1];
      assert init[..k] == names[..k];
      CheckAllStops(src, dst, builds, init, k);
    } else {
      assert names[..k] == names;
    }
  }

  /**
   * One pass of `check_data`'s loop: the registry lookup, both SELECTs, then `check_tables`.
   */
  method CheckNamed<R(==)>(src: LoadData.Sqlite, dst: Tables,
                           builds: Schema.TableKind -> (Dict -> Option<R>), tableName: string)
    returns (res: Result<(), CheckError>)
    ensures res == CheckListed(src, dst, builds, tableName)
  {
    var dbName := Schema.SCHEMA;
    var kind := LoadData.Lookup(tableName);
    if kind.None? {
      return Err(UnknownTable(tableName));
    }
    if tableName !in src.tables {
      return Err(SourceMissing(tableName));
    }
    if QualifiedName(dbName, tableName) !in dst {
      return Err(DestMissing(tableName));
    }
    res := CheckTables(src.tables[tableName], dst[QualifiedName(dbName, tableName)],
                       builds(kind.value));
  }

  /**
   * `check_tables` (03_sqlite_to_postgres/tests/check_consistency.py:16-54) once both tables
   * are read: the count check, then the loop filling `id2item`, then the loop over the
   * PostgreSQL rows.
   */
  method CheckTables<R(==)>(original: seq<Dict>, newData: seq<Dict>, build: Dict -> Option<R>)
    returns (res: Result<(), CheckError>)
    ensures res == CheckTable(original, newData, build)
  {
    if |original| != |newData| {
      return Err(CountMismatch(|original|, |newData|));
    }
    var id2item := IndexRows(original, build);
    if id2item.Err? {
      return Err(id2item.error);
    }
    res := CompareRows(newData, id2item.value, build);
  }

  /** The first loop of `check_tables`: every SQLite row into `id2item`, or the first failure. */
  method IndexRows<R>(original: seq<Dict>, build: Dict -> Option<R>)
    returns (res: Result<map<Value, R>, CheckError>)
    ensures res == Index(original, build)
  {
    var id2item: map<Value, R> := map[];
    var i := 0;
    while i < |original|
      invariant 0 <= i <= |original|
      invariant Index(original[..i], build) == Ok(id2item)
    {
      var item := original[i];
      assert original[..i + 1][..i] == original[..i];
      var itemDict := NormalizeSource(item);
      if itemDict.Err? {
        IndexStops(original, i + 1, build);
        return Err(itemDict.error);
      }
      var rec := build(itemDict.value);
      if rec.None? {
        IndexStops(original, i + 1, build);
        return Err(BuildFailed);
      }
      if "id" !in item {
        IndexStops(original, i + 1, build);
        return Err(MissingId);
      }
      id2item := id2item[item["id"] := rec.value];
      i := i + 1;
    }
    assert original[..i] == original;
    return Ok(id2item);
  }

  /** The second loop of `check_tables`: every PostgreSQL row against `id2item`. */
  method CompareRows<R(==)>(newData: seq<Dict>, id2item: map<Value, R>, build: Dict -> Option<R>)
    returns (res: Result<(), CheckError>)
    ensures res == Compare(newData, id2item, build)
  {
    var j := 0;
    while j < |newData|
      invariant 0 <= j <= |newData|
      invariant Compare(newData[..j], id2item, build) == Ok(())
    {
      CompareNext(newData, id2item, build, j);
      var itemDict := NormalizeDest(newData[j]);
      var newModel := build(itemDict);
      if newModel.None? {
        CompareStops(newData, j + 1, id2item, build);
        return Err(BuildFailed);
      }
      if "id" !in itemDict {
        CompareStops(newData, j + 1, id2item, build);
        return Err(MissingId);
      }
      var id := itemDict["id"];
      if id !in id2item {
        CompareStops(newData, j + 1, id2item, build);
        return Err(UnknownId(id));
      }
      if id2item[id] != newModel.value {
        CompareStops(newData, j + 1, id2item, build);
        return Err(Mismatch(id));
      }
      j := j + 1;
    }
    assert newData[..j] == newData;
    return Ok(());
  }

  /**
   * `check_data` (03_sqlite_to_postgres/tests/check_consistency.py:66-80) once both
   * connections are open: every table SQLite lists is looked up in the registry and checked
   * against what PostgreSQL has committed in schema `content`. It has no `modifies` clause:
   * neither store is written.
   */
  method CheckData<R(==)>(dsl: LoadData.UploadSettings, src: LoadData.Sqlite, pg: Postgres,
                          builds: Schema.TableKind -> (Dict -> Option<R>))
    returns (res: Result<(), CheckError>)
    ensures res == CheckAll(src, pg.committed, builds, src.master)
  {
    var names := src.master;
    var dst := pg.committed;
    var i := 0;
    while i < |names|
      invariant 0 <= i <= |names|
      invariant CheckAll(src, dst, builds, names[..i]) == Ok(())
    {
      var r := CheckNamed(src, dst, builds, names[i]);
      CheckAllNext(src, dst, builds, names, i);
      if r.Err? {
        CheckAllStops(src, dst, builds, names, i + 1);
        return r;
      }
      i := i + 1;
    }
    assert names[..i] == names;
    return Ok(());
  }
}
