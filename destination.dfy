/**
 * The PostgreSQL side of the copy (03_sqlite_to_postgres/load_data.py:104-125, 145-148):
 * schema-qualified tables holding rows in insertion order, the shape of the
 * `INSERT ... ON CONFLICT DO NOTHING` statement the uploader prepares, its insert-or-ignore
 * effect, and a connection object whose `ExecuteMany` and `Commit` change what the session
 * sees and what is durable.
 *
 * A row is ignored when it agrees with a row already in the table on every column of one of
 * the table's unique column sets (all of them non-NULL), which is when PostgreSQL reports the
 * conflict that `DO NOTHING` swallows.
 */
module Destination {
  import opened Wrappers
  import opened Rows

  datatype QualifiedName = QualifiedName(schema: string, table: string)

  /**
   * `INSERT INTO <target.schema>.<target.table> (<columns>) VALUES (<placeholders>)
   * ON CONFLICT DO NOTHING;` with `placeholders` bound parameters.
   */
  datatype InsertStatement = InsertStatement(target: QualifiedName, columns: seq<string>, placeholders: nat)

  /** One `executemany` call: a statement and the tuples bound to it. */
  datatype Flush = Flush(stmt: InsertStatement, batch: seq<Tuple>)

  type Table = seq<Dict>

  type Tables = map<QualifiedName, Table>

  /** The tables that exist, each with its unique column sets (primary key included). */
  type Catalog = map<QualifiedName, seq<seq<string>>>

  predicate Provisioned(catalog: Catalog, tables: Tables) {
    (forall q :: q in tables ==> q in catalog) && (forall q :: q in catalog ==> q in tables)
  }

  /** `a` and `b` hold the same non-NULL value in every column of the unique set `key`. */
  predicate Agree(a: Dict, b: Dict, key: seq<string>) {
    key != [] && forall c :: c in key ==> c in a && c in b && a[c] != Null && a[c] == b[c]
  }

  /** Storing both `a` and `b` would violate a unique constraint. */
  predicate Conflicts(a: Dict, b: Dict, uniques: seq<seq<string>>) {
    exists key :: key in uniques && Agree(a, b, key)
  }

  /** Some row of `t` conflicts with `row`. */
  predicate Covered(t: Table, row: Dict, uniques: seq<seq<string>>) {
    exists i :: 0 <= i < |t| && Conflicts(t[i], row, uniques)
  }

  /** `row` carries a complete non-NULL value for some unique set (its primary key, typically). */
  predicate Keyed(row: Dict, uniques: seq<seq<string>>) {
    Conflicts(row, row, uniques)
  }

  /** No two rows of `t` conflict: the unique constraints hold. */
  predicate NoDuplicates(t: Table, uniques: seq<seq<string>>) {
    forall i, j :: 0 <= i < j < |t| ==> !Conflicts(t[i], t[j], uniques)
  }

  /** One row under `ON CONFLICT DO NOTHING`. */
  function InsertOrIgnore(t: Table, row: Dict, uniques: seq<seq<string>>): Table {
    if Covered(t, row, uniques) then t else t + [row]
  }

  /** Rows inserted one after the other, as `executemany` runs them. */
  function InsertAll(t: Table, rows: seq<Dict>, uniques: seq<seq<string>>): Table {
    if rows == [] then t
    else InsertOrIgnore(InsertAll(t, rows[..|rows| - 1], uniques), rows[|rows| - 1], uniques)
  }

  /** Rows already present are never changed, removed or reordered. */
  lemma {:induction false} InsertAllExtends(t: Table, rows: seq<Dict>, uniques: seq<seq<string>>)
    ensures |t| <= |InsertAll(t, rows, uniques)| && InsertAll(t, rows, uniques)[..|t|] == t
  {
    if rows != [] {
      InsertAllExtends(t, rows[..|rows| - 1], uniques);
    }
  }

  /** A covered row stays covered as the table grows. */
  lemma CoveredGrows(t: Table, t': Table, row: Dict, uniques: seq<seq<string>>)
    requires |t| <= |t'| && t'[..|t|] == t
    requires Covered(t, row, uniques)
    ensures Covered(t', row, uniques)
  {
    var i :| 0 <= i < |t| && Conflicts(t[i], row, uniques);
    assert t'[i] == t[i];
  }

  /** After the insert, every keyed row is in the table or stands behind one that conflicts with it. */
  lemma {:induction false} InsertAllCovers(t: Table, rows: seq<Dict>, uniques: seq<seq<string>>)
    requires forall k :: 0 <= k < |rows| ==> Keyed(rows[k], uniques)
    ensures forall k :: 0 <= k < |rows| ==> Covered(InsertAll(t, rows, uniques), rows[k], uniques)
  {
    if rows != [] {
      var init, last := rows[..|rows| - 1], rows[|rows| - 1];
      var mid := InsertAll(t, init, uniques);
      var t' := InsertAll(t, rows, uniques);
      InsertAllCovers(t, init, uniques);
      assert t' == InsertOrIgnore(mid, last, uniques);
      assert |mid| <= |t'| && t'[..|mid|] == mid;
      forall k | 0 <= k < |rows|
        ensures Covered(t', rows[k], uniques)
      {
        if k < |rows| - 1 {
          assert rows[k] == init[k];
          CoveredGrows(mid, t', rows[k], uniques);
        } else if !Covered(mid, last, uniques) {
          assert t'[|mid|] == last && Conflicts(last, last, uniques);
        }
      }
    }
  }

  /** Inserting rows that are all covered already changes nothing. */
  lemma {:induction false} InsertAllNoOp(t: Table, rows: seq<Dict>, uniques: seq<seq<string>>)
    requires forall k :: 0 <= k < |rows| ==> Covered(t, rows[k], uniques)
    ensures InsertAll(t, rows, uniques) == t
  {
    if rows != [] {
      InsertAllNoOp(t, rows[..|rows| - 1], uniques);
    }
  }

  /** Inserting the same keyed rows a second time leaves the table as the first time did. */
  lemma InsertAllIdempotent(t: Table, rows: seq<Dict>, uniques: seq<seq<string>>)
    requires forall k :: 0 <= k < |rows| ==> Keyed(rows[k], uniques)
    ensures InsertAll(InsertAll(t, rows, uniques), rows, uniques) == InsertAll(t, rows, uniques)
  {
    InsertAllCovers(t, rows, uniques);
    InsertAllNoOp(InsertAll(t, rows, uniques), rows, uniques);
  }

  /** Insert-or-ignore never creates a duplicate: the unique constraints keep holding. */
  lemma {:induction false} InsertAllNoDuplicates(t: Table, rows: seq<Dict>, uniques: seq<seq<string>>)
    requires NoDuplicates(t, uniques)
    ensures NoDuplicates(InsertAll(t, rows, uniques), uniques)
  {
    if rows != [] {
      var mid := InsertAll(t, rows[..|rows| - 1], uniques);
      InsertAllNoDuplicates(t, rows[..|rows| - 1], uniques);
      var last := rows[|rows| - 1];
      if !Covered(mid, last, uniques) {
        var t' := mid + [last];
        forall i, j | 0 <= i < j < |t'|
          ensures !Conflicts(t'[i], t'[j], uniques)
        {
          if j == |mid| {
            assert t'[i] == mid[i];
          }
        }
      }
    }
  }

  /** Splitting the rows into consecutive parts does not change the result. */
  lemma {:induction false} InsertAllAppend(t: Table, a: seq<Dict>, b: seq<Dict>, uniques: seq<seq<string>>)
    ensures InsertAll(t, a + b, uniques) == InsertAll(InsertAll(t, a, uniques), b, uniques)
  {
    if b == [] {
      assert a + b == a;
    } else {
      assert (a + b)[..|a + b| - 1] == a + b[..|b| - 1];
      InsertAllAppend(t, a, b[..|b| - 1], uniques);
    }
  }

  /** A statement the server runs: its table exists, its columns are distinct, and each tuple fills them. */
  predicate Accepts(catalog: Catalog, stmt: InsertStatement, batch: seq<Tuple>) {
    && stmt.target in catalog
    && Distinct(stmt.columns)
    && stmt.placeholders == |stmt.columns|
    && forall i :: 0 <= i < |batch| ==> |batch[i]| == stmt.placeholders
  }

  /** The rows a batch of tuples becomes once bound to the statement's columns. */
  function RowsOf(catalog: Catalog, stmt: InsertStatement, batch: seq<Tuple>): (rows: seq<Dict>)
    requires Accepts(catalog, stmt, batch)
    ensures |rows| == |batch|
  {
    seq(|batch|, i requires 0 <= i < |batch| => Zip(stmt.columns, batch[i]))
  }

  /** The effect of one `executemany`, or `None` when the server refuses it. */
  function Execute(catalog: Catalog, tables: Tables, f: Flush): (r: Option<Tables>)
    requires Provisioned(catalog, tables)
    ensures r.Some? ==> Provisioned(catalog, r.value)
  {
    if !Accepts(catalog, f.stmt, f.batch) then None
    else
      var q := f.stmt.target;
      Some(tables[q := InsertAll(tables[q], RowsOf(catalog, f.stmt, f.batch), catalog[q])])
  }

  /** The effect of a sequence of `executemany` calls, stopping at the first refused one. */
  function Replay(catalog: Catalog, tables: Tables, log: seq<Flush>): (r: Option<Tables>)
    requires Provisioned(catalog, tables)
    ensures r.Some? ==> Provisioned(catalog, r.value)
  {
    if log == [] then Some(tables)
    else
      var mid := Replay(catalog, tables, log[..|log| - 1]);
      if mid.None? then None else Execute(catalog, mid.value, log[|log| - 1])
  }

  /** Every flush of the log is accepted by the server. */
  predicate AllAccepted(catalog: Catalog, log: seq<Flush>) {
    forall i :: 0 <= i < |log| ==> Accepts(catalog, log[i].stmt, log[i].batch)
  }

  /** Whether the server accepts a flush depends on the statement and the tuples, not on the data. */
  lemma {:induction false} ReplayDefined(catalog: Catalog, tables: Tables, log: seq<Flush>)
    requires Provisioned(catalog, tables)
    ensures Replay(catalog, tables, log).Some? <==> AllAccepted(catalog, log)
  {
    if log != [] {
      var init, f := log[..|log| - 1], log[|log| - 1];
      ReplayDefined(catalog, tables, init);
      assert forall i :: 0 <= i < |init| ==> init[i] == log[i];
      if AllAccepted(catalog, log) {
        assert AllAccepted(catalog, init);
        assert Accepts(catalog, f.stmt, f.batch);
      }
    }
  }

  lemma {:induction false} ReplayAppend(catalog: Catalog, tables: Tables, a: seq<Flush>, b: seq<Flush>)
    requires Provisioned(catalog, tables)
    ensures var mid := Replay(catalog, tables, a);
      Replay(catalog, tables, a + b) == if mid.None? then None else Replay(catalog, mid.value, b)
  {
    if b == [] {
      assert a + b == a;
    } else {
      assert (a + b)[..|a + b| - 1] == a + b[..|b| - 1];
      ReplayAppend(catalog, tables, a, b[..|b| - 1]);
    }
  }

  /** Each table after the replay extends the same table before it. */
  ghost predicate Extends(before: Tables, after: Tables) {
    && before.Keys == after.Keys
    && forall q :: q in before ==> |before[q]| <= |after[q]| && after[q][..|before[q]|] == before[q]
  }

  /** Every row of every flush is covered in the table its statement targets. */
  ghost predicate CoversLog(catalog: Catalog, tables: Tables, log: seq<Flush>)
    requires Provisioned(catalog, tables)
  {
    forall i :: 0 <= i < |log| ==>
      (Accepts(catalog, log[i].stmt, log[i].batch) &&
       var q := log[i].stmt.target;
       var rows := RowsOf(catalog, log[i].stmt, log[i].batch);
       forall k :: 0 <= k < |rows| ==> Covered(tables[q], rows[k], catalog[q]))
  }

  /** Every row of every flush carries a complete unique key of its target. */
  ghost predicate KeyedLog(catalog: Catalog, log: seq<Flush>) {
    forall i :: 0 <= i < |log| ==>
      (Accepts(catalog, log[i].stmt, log[i].batch) &&
       var q := log[i].stmt.target;
       var rows := RowsOf(catalog, log[i].stmt, log[i].batch);
       forall k :: 0 <= k < |rows| ==> Keyed(rows[k], catalog[q]))
  }

  lemma KeyedLogAppend(catalog: Catalog, a: seq<Flush>, b: seq<Flush>)
    requires KeyedLog(catalog, a) && KeyedLog(catalog, b)
    ensures KeyedLog(catalog, a + b)
  {
    var ab := a + b;
    assert forall i :: 0 <= i < |a| ==> ab[i] == a[i];
    assert forall i :: 0 <= i < |b| ==> ab[|a| + i] == b[i];
  }

  lemma ExtendsCovers(catalog: Catalog, t: Tables, t': Tables, log: seq<Flush>)
    requires Provisioned(catalog, t) && Provisioned(catalog, t')
    requires Extends(t, t') && CoversLog(catalog, t, log)
    ensures CoversLog(catalog, t', log)
  {
    forall i, k | 0 <= i < |log| && 0 <= k < |RowsOf(catalog, log[i].stmt, log[i].batch)|
      ensures Covered(t'[log[i].stmt.target], RowsOf(catalog, log[i].stmt, log[i].batch)[k],
                      catalog[log[i].stmt.target])
    {
      var q := log[i].stmt.target;
      CoveredGrows(t[q], t'[q], RowsOf(catalog, log[i].stmt, log[i].batch)[k], catalog[q]);
    }
  }

  /** A successful replay only appends, and leaves every keyed row it sent covered. */
  lemma {:induction false} ReplayCovers(catalog: Catalog, tables: Tables, log: seq<Flush>)
    requires Provisioned(catalog, tables)
    requires Replay(catalog, tables, log).Some?
    requires KeyedLog(catalog, log)
    ensures Extends(tables, Replay(catalog, tables, log).value)
    ensures CoversLog(catalog, Replay(catalog, tables, log).value, log)
  {
    if log != [] {
      var init, f := log[..|log| - 1], log[|log| - 1];
      assert KeyedLog(catalog, init) by {
        forall i | 0 <= i < |init| ensures init[i] == log[i] { }
      }
      ReplayCovers(catalog, tables, init);
      var mid := Replay(catalog, tables, init).value;
      var after := Replay(catalog, tables, log).value;
      assert Execute(catalog, mid, f) == Some(after);
      assert Accepts(catalog, f.stmt, f.batch) && var rows := RowsOf(catalog, f.stmt, f.batch);
        forall k :: 0 <= k < |rows| ==> Keyed(rows[k], catalog[f.stmt.target]);
      ExecuteCovers(catalog, mid, f);
      ExtendsCovers(catalog, mid, after, init);
      ExtendsTrans(tables, mid, after);
      CoversSnoc(catalog, after, log);
    }
  }

  /** One accepted flush only appends to its target, and leaves each of its keyed rows covered. */
  lemma ExecuteCovers(catalog: Catalog, tables: Tables, f: Flush)
    requires Provisioned(catalog, tables)
    requires Accepts(catalog, f.stmt, f.batch) && var rows := RowsOf(catalog, f.stmt, f.batch);
      forall k :: 0 <= k < |rows| ==> Keyed(rows[k], catalog[f.stmt.target])
    ensures var after := Execute(catalog, tables, f).value;
      var rows := RowsOf(catalog, f.stmt, f.batch);
      && Extends(tables, after)
      && forall k :: 0 <= k < |rows| ==> Covered(after[f.stmt.target], rows[k], catalog[f.stmt.target])
  {
    var q := f.stmt.target;
    var rows := RowsOf(catalog, f.stmt, f.batch);
    InsertAllExtends(tables[q], rows, catalog[q]);
    InsertAllCovers(tables[q], rows, catalog[q]);
  }

  /** Appending to appended tables is appending. */
  lemma ExtendsTrans(a: Tables, b: Tables, c: Tables)
    requires Extends(a, b) && Extends(b, c)
    ensures Extends(a, c)
  {
    forall p | p in a ensures |a[p]| <= |c[p]| && c[p][..|a[p]|] == a[p] {
      assert c[p][..|a[p]|] == c[p][..|b[p]|][..|a[p]|];
    }
  }

  /** Coverage of a log is coverage of all flushes before the last, and of the last. */
  lemma CoversSnoc(catalog: Catalog, tables: Tables, log: seq<Flush>)
    requires Provisioned(catalog, tables) && log != []
    requires CoversLog(catalog, tables, log[..|log| - 1])
    requires var f := log[|log| - 1];
      Accepts(catalog, f.stmt, f.batch) && var rows := RowsOf(catalog, f.stmt, f.batch);
      forall k :: 0 <= k < |rows| ==> Covered(tables[f.stmt.target], rows[k], catalog[f.stmt.target])
    ensures CoversLog(catalog, tables, log)
  {
    var init := log[..|log| - 1];
    forall i | 0 <= i < |log| - 1 ensures log[i] == init[i] { }
  }

  /** Replaying a log whose every row is covered already changes nothing. */
  lemma {:induction false} ReplayNoOp(catalog: Catalog, tables: Tables, log: seq<Flush>)
    requires Provisioned(catalog, tables)
    requires CoversLog(catalog, tables, log)
    ensures Replay(catalog, tables, log) == Some(tables)
  {
    if log != [] {
      var init, f := log[..|log| - 1], log[|log| - 1];
      assert CoversLog(catalog, tables, init) by {
        forall i | 0 <= i < |init| ensures init[i] == log[i] { }
      }
      ReplayNoOp(catalog, tables, init);
      var q := f.stmt.target;
      assert f == log[|log| - 1];
      InsertAllNoOp(tables[q], RowsOf(catalog, f.stmt, f.batch), catalog[q]);
      assert tables[q := tables[q]] == tables;
    }
  }

  /**
   * Sending the same flushes a second time, after they all succeeded once, succeeds and
   * leaves every table as the first time left it.
   */
  lemma ReplayIdempotent(catalog: Catalog, tables: Tables, log: seq<Flush>)
    requires Provisioned(catalog, tables)
    requires Replay(catalog, tables, log).Some?
    requires KeyedLog(catalog, log)
    ensures var once := Replay(catalog, tables, log).value;
      Replay(catalog, once, log) == Some(once)
  {
    ReplayCovers(catalog, tables, log);
    ReplayNoOp(catalog, Replay(catalog, tables, log).value, log);
  }

  /**
   * A PostgreSQL connection with its open transaction: `tables` is what this session sees,
   * `committed` what is durable and visible to other connections; `log` records the accepted
   * `executemany` calls and `commits` the commits.
   */
  class Postgres {
    const catalog: Catalog
    var tables: Tables
    var committed: Tables
    ghost var log: seq<Flush>
    ghost var commits: nat

    ghost predicate Valid()
      reads this
    {
      Provisioned(catalog, tables) && Provisioned(catalog, committed)
    }

    constructor (catalog: Catalog, contents: Tables)
      requires Provisioned(catalog, contents)
      ensures Valid()
      ensures this.catalog == catalog && tables == contents && committed == contents
      ensures log == [] && commits == 0
    {
      this.catalog := catalog;
      tables := contents;
      committed := contents;
      log := [];
      commits := 0;
    }

    /** `cursor.executemany(stmt, batch)`: every tuple inserted or ignored, or an error. */
    method ExecuteMany(stmt: InsertStatement, batch: seq<Tuple>) returns (ok: bool)
      requires Valid()
      modifies this
      ensures Valid()
      ensures ok == Accepts(catalog, stmt, batch)
      ensures ok ==> Execute(catalog, old(tables), Flush(stmt, batch)) == Some(tables)
      ensures ok ==> log == old(log) + [Flush(stmt, batch)]
      ensures !ok ==> tables == old(tables) && log == old(log)
      ensures committed == old(committed) && commits == old(commits)
    {
      ok := Accepts(catalog, stmt, batch);
      if ok {
        tables := Execute(catalog, tables, Flush(stmt, batch)).value;
        log := log + [Flush(stmt, batch)];
      }
    }

    /** `connection.commit()`: what the session sees becomes durable. */
    method Commit()
      requires Valid()
      modifies this
      ensures Valid()
      ensures committed == tables && commits == old(commits) + 1
      ensures tables == old(tables) && log == old(log)
    {
      committed := tables;
      commits := commits + 1;
    }
  }
}
