/**
 * The legacy-data loader: cleans each table's rows, inserts them in the planned order with
 * the deferred foreign keys blanked, and fills those keys in a second pass.
 *
 * A row maps column names to values; NULL (and JavaScript's undefined) is an absent key.
 */
module Loader {
  import opened Sequences
  import opened LoadOrder

  datatype Value = Num(n: int) | Text(s: string)
  type Row = map<string, Value>
  type Db = map<string, seq<Row>>

  /** Everything the run reads: the target schema's facts and the legacy rows. */
  datatype Job = Job(
    tables: seq<string>,
    fks: seq<Fk>,
    nullable: (string, string) -> bool,
    pk: map<string, set<string>>,
    sentinels: map<string, set<string>>,
    source: Db,
    hash: string -> string)

  datatype Outcome = Loaded | Unplannable(stuck: seq<string>) | NoSourceTable | Refused

  function Keys(rows: seq<Row>, col: string): set<Value> {
    set r | r in rows && col in r :: r[col]
  }

  /** The keys of a column are the values its rows have in it, of whatever type. */
  lemma KeysAreColumnValues(rows: seq<Row>, col: string, v: Value)
    ensures v in Keys(rows, col) <==> exists i :: 0 <= i < |rows| && col in rows[i] && rows[i][col] == v
  {
    if v in Keys(rows, col) {
      var r :| r in rows && col in r && r[col] == v;
      var i :| 0 <= i < |rows| && rows[i] == r;
    }
  }

  function RowsOf(db: Db, t: string): seq<Row> {
    if t in db then db[t] else []
  }

  /* ---------- cleaning one row ---------- */

  function SentinelsOf(job: Job, t: string): set<string> {
    if t in job.sentinels then job.sentinels[t] else {}
  }

  function ClearSentinels(job: Job, t: string, raw: Row): Row {
    raw - (set c | c in SentinelsOf(job, t) && c in raw && raw[c] == Num(0))
  }

  /** Keys checked against the legacy parents; a self-reference is checked too. */
  predicate Checked(job: Job, t: string, f: Fk) {
    f.child == t && f.parent in job.tables
  }

  predicate Orphan(job: Job, row: Row, f: Fk) {
    f.col in row && row[f.col] !in Keys(RowsOf(job.source, f.parent), f.pcol)
  }

  predicate Skipped(job: Job, t: string, raw: Row) {
    exists f | f in job.fks ::
      Checked(job, t, f) && Orphan(job, ClearSentinels(job, t, raw), f) && !job.nullable(t, f.col)
  }

  function HashPassword(job: Job, t: string, row: Row): Row {
    if t == "tblSecUser" && "Password" in row && row["Password"].Text? && row["Password"].s != ""
    then row["Password" := Text(job.hash(row["Password"].s))]
    else row
  }

  function OrphanCols(job: Job, t: string, row: Row): set<string> {
    set f | f in job.fks && Checked(job, t, f) && Orphan(job, row, f) && job.nullable(t, f.col) :: f.col
  }

  function Cleaned(job: Job, t: string, raw: Row): Row {
    var row := ClearSentinels(job, t, raw);
    HashPassword(job, t, row - OrphanCols(job, t, row))
  }

  function CleanRows(job: Job, t: string, raws: seq<Row>): seq<Row> {
    if raws == [] then []
    else
      var n := |raws| - 1;
      CleanRows(job, t, raws[..n]) + (if Skipped(job, t, raws[n]) then [] else [Cleaned(job, t, raws[n])])
  }

  function Kept(job: Job, t: string): seq<Row> { CleanRows(job, t, RowsOf(job.source, t)) }

  /** The database a direct insert of the cleaned rows would hold. */
  function Direct(job: Job): Db { map t | t in job.tables :: Kept(job, t) }

  lemma {:induction false} CleanRowsMembers(job: Job, t: string, raws: seq<Row>)
    ensures forall r :: r in CleanRows(job, t, raws) <==>
                        exists raw :: raw in raws && !Skipped(job, t, raw) && r == Cleaned(job, t, raw)
  {
    if raws != [] {
      var n := |raws| - 1;
      CleanRowsMembers(job, t, raws[..n]);
      assert raws == raws[..n] + [raws[n]];
    }
  }

  lemma CleanOneRow(job: Job, t: string, raw: Row)
    ensures CleanRows(job, t, [raw]) == if Skipped(job, t, raw) then [] else [Cleaned(job, t, raw)]
  {
    assert [raw][..0] == [];
    assert CleanRows(job, t, []) == [];
  }

  /** Rows are cleaned one by one: their order and number of occurrences are kept. */
  lemma {:induction false} CleanRowsConcat(job: Job, t: string, a: seq<Row>, b: seq<Row>)
    ensures CleanRows(job, t, a + b) == CleanRows(job, t, a) + CleanRows(job, t, b)
  {
    if b == [] {
      assert a + b == a;
    } else {
      var n := |b| - 1;
      assert (a + b)[..|a| + n] == a + b[..n];
      CleanRowsConcat(job, t, a, b[..n]);
    }
  }

  /** A value that a sentinel zero stands for. */
  predicate Sentinel(job: Job, t: string, c: string, v: Value) {
    t in job.sentinels && c in job.sentinels[t] && v == Num(0)
  }

  /** A row is skipped exactly when a NOT NULL key of it has a value that names no legacy parent. */
  lemma SkippedIffNotNullOrphan(job: Job, t: string, raw: Row)
    ensures Skipped(job, t, raw) <==>
            exists f | f in job.fks && f.child == t && f.parent in job.tables && f.col in raw ::
              && !job.nullable(t, f.col) && !Sentinel(job, t, f.col, raw[f.col])
              && raw[f.col] !in Keys(RowsOf(job.source, f.parent), f.pcol)
  {
    forall f | f in job.fks
      ensures Checked(job, t, f) && Orphan(job, ClearSentinels(job, t, raw), f) <==>
              && f.child == t && f.parent in job.tables && f.col in raw
              && !Sentinel(job, t, f.col, raw[f.col])
              && raw[f.col] !in Keys(RowsOf(job.source, f.parent), f.pcol)
    {
    }
  }

  /** No password is loaded as it stood: a text is hashed, and only what is no text or empty is kept. */
  lemma PasswordIsHashed(job: Job, raw: Row)
    requires "Password" in Cleaned(job, "tblSecUser", raw)
    ensures "Password" in raw
    ensures forall s | raw["Password"] == Text(s) && s != "" ::
              Cleaned(job, "tblSecUser", raw)["Password"] == Text(job.hash(s))
    ensures raw["Password"].Num? || raw["Password"] == Text("") ==>
              Cleaned(job, "tblSecUser", raw)["Password"] == raw["Password"]
  {
  }

  /** A column that a row may lose in cleaning: a sentinel zero, or a nullable orphan. */
  ghost predicate Cleared(job: Job, t: string, raw: Row, c: string)
    requires c in raw
  {
    || (c in SentinelsOf(job, t) && raw[c] == Num(0))
    || exists f | f in job.fks && Checked(job, t, f) && f.col == c ::
         job.nullable(t, c) && raw[c] !in Keys(RowsOf(job.source, f.parent), f.pcol)
  }

  /** Cleaning clears exactly such columns, rewrites only the password, and adds nothing. */
  lemma CleaningIsExact(job: Job, t: string, raw: Row)
    ensures forall c :: c in Cleaned(job, t, raw) <==> c in raw && !Cleared(job, t, raw, c)
    ensures forall c | c in Cleaned(job, t, raw) && (t, c) != ("tblSecUser", "Password") ::
              Cleaned(job, t, raw)[c] == raw[c]
  {
    var row := ClearSentinels(job, t, raw);
    forall c ensures c in row - OrphanCols(job, t, row) <==> c in raw && !Cleared(job, t, raw, c) {
      if c in OrphanCols(job, t, row) {
        var f :| f in job.fks && Checked(job, t, f) && Orphan(job, row, f) && job.nullable(t, f.col) && f.col == c;
      }
    }
  }

  /** A kept row has no orphan left: each checked key it still carries names a legacy parent. */
  lemma KeptHasNoOrphan(job: Job, t: string, raw: Row, f: Fk)
    requires !Skipped(job, t, raw) && f in job.fks && Checked(job, t, f) && (t, f.col) != ("tblSecUser", "Password")
    requires f.col in Cleaned(job, t, raw)
    ensures Cleaned(job, t, raw)[f.col] in Keys(RowsOf(job.source, f.parent), f.pcol)
  {
    CleaningIsExact(job, t, raw);
    assert !Cleared(job, t, raw, f.col);
    assert f.col in ClearSentinels(job, t, raw);
  }

  /* ---------- what the schema guarantees ---------- */

  /** A column carries at most one foreign key. */
  ghost predicate OneKeyPerColumn(fks: seq<Fk>) {
    forall i, j | 0 <= i < j < |fks| :: fks[i].child != fks[j].child || fks[i].col != fks[j].col
  }

  /** Referenced columns are NOT NULL, as the primary keys they are. */
  ghost predicate ReferencesNotNull(job: Job) {
    forall f | f in job.fks && IsEdge(job.tables, f) :: !job.nullable(f.parent, f.pcol)
  }

  predicate SameKey(pk: set<string>, a: Row, b: Row) {
    forall k | k in pk :: k in a && k in b && a[k] == b[k]
  }

  /** No primary key has a nullable column. */
  ghost predicate KeysNotNull(job: Job) {
    forall t, k | t in job.pk && k in job.pk[t] :: !job.nullable(t, k)
  }

  /** The rows of `t` are told apart by a primary key without NULLs. */
  predicate KeysHold(job: Job, t: string, rows: seq<Row>) {
    t in job.pk ==>
      && (forall r | r in rows :: SameKey(job.pk[t], r, r))
      && (forall i, j | 0 <= i < j < |rows| :: !SameKey(job.pk[t], rows[i], rows[j]))
  }

  /** `order` lists the tables, each once. */
  ghost predicate Orders(order: seq<string>, tables: seq<string>) {
    multiset(order) == multiset(tables) && Distinct(order)
  }

  /** `deferred` names nullable live keys, and what is not deferred is loaded parents first. */
  ghost predicate Planned(job: Job, order: seq<string>, deferred: seq<Fk>) {
    && Orders(order, job.tables)
    && OneKeyPerColumn(deferred)
    && (forall d | d in deferred :: d in job.fks && IsEdge(job.tables, d) && job.nullable(d.child, d.col))
    && (forall f | f in job.fks && IsEdge(job.tables, f) && f !in deferred ::
          forall i | 0 <= i < |order| && order[i] == f.child :: f.parent in order[..i])
  }

  /* ---------- the two passes as a database ---------- */

  function DeferredCols(deferred: seq<Fk>, t: string): set<string> {
    set d | d in deferred && d.child == t :: d.col
  }

  function Blanked(rows: seq<Row>, cols: set<string>): (r: seq<Row>)
    ensures |r| == |rows| && forall i | 0 <= i < |r| :: r[i] == rows[i] - cols
  {
    seq(|rows|, i requires 0 <= i < |rows| => rows[i] - cols)
  }

  /** The database after the first pass. */
  function FirstPass(job: Job, deferred: seq<Fk>): Db {
    map t | t in job.tables :: Blanked(Kept(job, t), DeferredCols(deferred, t))
  }

  predicate RowConsistent(job: Job, db: Db, t: string, row: Row) {
    forall f | f in job.fks && IsEdge(job.tables, f) && f.child == t && f.col in row ::
      row[f.col] in Keys(RowsOf(db, f.parent), f.pcol)
  }

  /** Every non-null foreign key between distinct tables names a row of its parent. */
  ghost predicate Consistent(job: Job, db: Db) {
    forall t, r | t in job.tables && r in RowsOf(db, t) :: RowConsistent(job, db, t, r)
  }

  ghost predicate AllKeysHold(job: Job, db: Db) {
    forall t | t in job.tables :: KeysHold(job, t, RowsOf(db, t))
  }

  /** What a set of checked inserts demands of the database it builds. */
  ghost predicate Sound(job: Job, db: Db) { Consistent(job, db) && AllKeysHold(job, db) }

  /** Deferred columns of a cleaned row still NULL once the first `m` keys have been filled. */
  function Unfilled(job: Job, deferred: seq<Fk>, m: nat, t: string, row: Row): set<string> {
    set k | 0 <= k < |deferred| && deferred[k].child == t
            && (k >= m || !Resolves(job, deferred[k], row)) :: deferred[k].col
  }

  predicate Resolves(job: Job, d: Fk, row: Row) {
    d.col in row && row[d.col] in Keys(Kept(job, d.parent), d.pcol)
  }

  function FilledRows(job: Job, deferred: seq<Fk>, m: nat, t: string): (r: seq<Row>)
    ensures |r| == |Kept(job, t)|
    ensures forall i | 0 <= i < |r| :: r[i] == Kept(job, t)[i] - Unfilled(job, deferred, m, t, Kept(job, t)[i])
  {
    var rows := Kept(job, t);
    seq(|rows|, i requires 0 <= i < |rows| => rows[i] - Unfilled(job, deferred, m, t, rows[i]))
  }

  /** The database once the first `m` deferred keys have been filled. */
  function Filled(job: Job, deferred: seq<Fk>, m: nat): Db {
    map t | t in job.tables :: FilledRows(job, deferred, m, t)
  }

  lemma FilledStartsAtFirstPass(job: Job, deferred: seq<Fk>)
    ensures Filled(job, deferred, 0) == FirstPass(job, deferred)
  {
    forall t | t in job.tables
      ensures FilledRows(job, deferred, 0, t) == Blanked(Kept(job, t), DeferredCols(deferred, t))
    {
      forall row ensures Unfilled(job, deferred, 0, t, row) == DeferredCols(deferred, t) {
        forall c | c in DeferredCols(deferred, t) ensures c in Unfilled(job, deferred, 0, t, row) {
          var d :| d in deferred && d.child == t && d.col == c;
          var k :| 0 <= k < |deferred| && deferred[k] == d;
        }
      }
    }
  }

  /** Filling never touches a referenced column, so parents show the same keys throughout. */
  lemma ReferencedKeysStable(job: Job, deferred: seq<Fk>, m: nat, f: Fk)
    requires ReferencesNotNull(job)
    requires forall d | d in deferred :: d in job.fks && IsEdge(job.tables, d) && job.nullable(d.child, d.col)
    requires f in job.fks && IsEdge(job.tables, f)
    ensures Keys(FilledRows(job, deferred, m, f.parent), f.pcol) == Keys(Kept(job, f.parent), f.pcol)
  {
    var kept, filled := Kept(job, f.parent), FilledRows(job, deferred, m, f.parent);
    forall i | 0 <= i < |kept|
      ensures f.pcol in filled[i] <==> f.pcol in kept[i]
      ensures f.pcol in kept[i] ==> filled[i][f.pcol] == kept[i][f.pcol]
    {
      assert f.pcol !in Unfilled(job, deferred, m, f.parent, kept[i]) by {
        forall k | 0 <= k < |deferred| && deferred[k].child == f.parent ensures deferred[k].col != f.pcol {
          assert deferred[k] in deferred;
        }
      }
    }
    forall v ensures v in Keys(filled, f.pcol) <==> v in Keys(kept, f.pcol) {
      if v in Keys(filled, f.pcol) {
        var r :| r in filled && f.pcol in r && r[f.pcol] == v;
        var i :| 0 <= i < |filled| && filled[i] == r;
        assert kept[i] in kept;
      }
      if v in Keys(kept, f.pcol) {
        var r :| r in kept && f.pcol in r && r[f.pcol] == v;
        var i :| 0 <= i < |kept| && kept[i] == r;
        assert filled[i] in filled;
      }
    }
  }

  /** What is directly consistent is filled back in full. */
  lemma ConsistentIsFilled(job: Job, deferred: seq<Fk>)
    requires forall d | d in deferred :: d in job.fks && IsEdge(job.tables, d)
    requires Consistent(job, Direct(job))
    ensures Filled(job, deferred, |deferred|) == Direct(job)
  {
    forall t | t in job.tables ensures FilledRows(job, deferred, |deferred|, t) == Kept(job, t) {
      forall i | 0 <= i < |Kept(job, t)|
        ensures FilledRows(job, deferred, |deferred|, t)[i] == Kept(job, t)[i]
      {
        assert Kept(job, t)[i] in RowsOf(Direct(job), t);
        ConsistentRowIsFilled(job, deferred, t, Kept(job, t)[i]);
      }
    }
  }

  /** Blanking only takes references away, and no referenced column. */
  lemma ConsistentIsInsertable(job: Job, deferred: seq<Fk>)
    requires forall d | d in deferred :: d in job.fks && IsEdge(job.tables, d) && job.nullable(d.child, d.col)
    requires ReferencesNotNull(job) && Consistent(job, Direct(job))
    ensures Consistent(job, FirstPass(job, deferred))
  {
    FilledStartsAtFirstPass(job, deferred);
    var first := FirstPass(job, deferred);
    forall t, r | t in job.tables && r in RowsOf(first, t) ensures RowConsistent(job, first, t, r) {
      var i :| 0 <= i < |first[t]| && first[t][i] == r;
      assert Kept(job, t)[i] in RowsOf(Direct(job), t);
      assert RowConsistent(job, Direct(job), t, Kept(job, t)[i]);
      forall f | f in job.fks && IsEdge(job.tables, f) && f.child == t && f.col in r
        ensures r[f.col] in Keys(RowsOf(first, f.parent), f.pcol)
      {
        ReferencedKeysStable(job, deferred, 0, f);
      }
    }
  }

  /**
   * The two-phase load goes through and holds exactly the cleaned rows if and only if the
   * cleaned rows could have been inserted directly: deferring is invisible.
   */
  lemma TwoPhaseEqualsDirect(job: Job, order: seq<string>, deferred: seq<Fk>)
    requires Planned(job, order, deferred) && ReferencesNotNull(job) && OneKeyPerColumn(job.fks)
    ensures Consistent(job, FirstPass(job, deferred)) && Filled(job, deferred, |deferred|) == Direct(job)
       <==> Consistent(job, Direct(job))
  {
    if Consistent(job, Direct(job)) {
      ConsistentIsFilled(job, deferred);
      ConsistentIsInsertable(job, deferred);
    }
    if Consistent(job, FirstPass(job, deferred)) {
      FilledIsConsistent(job, deferred);
    }
  }

  lemma ConsistentRowIsFilled(job: Job, deferred: seq<Fk>, t: string, row: Row)
    requires forall d | d in deferred :: d in job.fks && IsEdge(job.tables, d)
    requires RowConsistent(job, Direct(job), t, row)
    ensures row - Unfilled(job, deferred, |deferred|, t, row) == row
  {
    forall k | 0 <= k < |deferred| && deferred[k].child == t && deferred[k].col in row
      ensures Resolves(job, deferred[k], row)
    {
      assert deferred[k] in deferred;
    }
  }

  /** After the second pass a row that passed the first names only kept parents. */
  lemma FilledRowConsistent(job: Job, deferred: seq<Fk>, t: string, i: nat)
    requires ReferencesNotNull(job) && OneKeyPerColumn(job.fks)
    requires forall d | d in deferred :: d in job.fks && IsEdge(job.tables, d) && job.nullable(d.child, d.col)
    requires Consistent(job, FirstPass(job, deferred))
    requires t in job.tables && i < |Kept(job, t)|
    ensures RowConsistent(job, Filled(job, deferred, |deferred|), t, FilledRows(job, deferred, |deferred|, t)[i])
  {
    FilledStartsAtFirstPass(job, deferred);
    var row := FilledRows(job, deferred, |deferred|, t)[i];
    var first := FilledRows(job, deferred, 0, t)[i];
    assert first in RowsOf(FirstPass(job, deferred), t);
    forall f | f in job.fks && IsEdge(job.tables, f) && f.child == t && f.col in row
      ensures row[f.col] in Keys(Filled(job, deferred, |deferred|)[f.parent], f.pcol)
    {
      ReferencedKeysStable(job, deferred, |deferred|, f);
      ReferencedKeysStable(job, deferred, 0, f);
      if f in deferred {
        var k :| 0 <= k < |deferred| && deferred[k] == f;
        assert f.col !in Unfilled(job, deferred, |deferred|, t, Kept(job, t)[i]);
      } else {
        assert f.col !in DeferredCols(deferred, t) by {
          forall d | d in deferred && d.child == t ensures d.col != f.col {
            DifferentKeysDiffer(job.fks, d, f);
          }
        }
        assert f.col in first && first[f.col] == row[f.col];
      }
    }
  }

  /** Once both passes are through, every non-null key between distinct tables names a loaded row. */
  lemma FilledIsConsistent(job: Job, deferred: seq<Fk>)
    requires ReferencesNotNull(job) && OneKeyPerColumn(job.fks)
    requires forall d | d in deferred :: d in job.fks && IsEdge(job.tables, d) && job.nullable(d.child, d.col)
    requires Consistent(job, FirstPass(job, deferred))
    ensures Consistent(job, Filled(job, deferred, |deferred|))
  {
    var final := Filled(job, deferred, |deferred|);
    forall t, r | t in job.tables && r in RowsOf(final, t) ensures RowConsistent(job, final, t, r) {
      var i :| 0 <= i < |final[t]| && final[t][i] == r;
      FilledRowConsistent(job, deferred, t, i);
    }
  }

  lemma DifferentKeysDiffer(fks: seq<Fk>, a: Fk, b: Fk)
    requires OneKeyPerColumn(fks) && a in fks && b in fks && a != b
    ensures a.child != b.child || a.col != b.col
  {
    var i :| 0 <= i < |fks| && fks[i] == a;
    var j :| 0 <= j < |fks| && fks[j] == b;
  }

  lemma SameKeyBlanked(pk: set<string>, a: Row, b: Row, cols: set<string>)
    requires pk !! cols
    ensures SameKey(pk, a - cols, b - cols) <==> SameKey(pk, a, b)
  {
  }

  lemma BlankedKeysHold(job: Job, t: string, rows: seq<Row>, cols: set<string>)
    requires t in job.pk && job.pk[t] !! cols
    ensures KeysHold(job, t, Blanked(rows, cols)) <==> KeysHold(job, t, rows)
  {
    var blanked := Blanked(rows, cols);
    forall i, j | 0 <= i < |rows| && 0 <= j < |rows|
      ensures SameKey(job.pk[t], blanked[i], blanked[j]) <==> SameKey(job.pk[t], rows[i], rows[j])
    {
      SameKeyBlanked(job.pk[t], rows[i], rows[j], cols);
    }
    assert forall i | 0 <= i < |rows| :: blanked[i] in blanked && rows[i] in rows;
  }

  /** Deferred columns are nullable, so blanking them leaves the primary keys as they are. */
  lemma BlankingKeepsKeys(job: Job, deferred: seq<Fk>, t: string)
    requires KeysNotNull(job)
    requires forall d | d in deferred :: job.nullable(d.child, d.col)
    ensures KeysHold(job, t, Blanked(Kept(job, t), DeferredCols(deferred, t))) <==> KeysHold(job, t, Kept(job, t))
  {
    if t in job.pk {
      BlankedKeysHold(job, t, Kept(job, t), DeferredCols(deferred, t));
    }
  }

  lemma BlankingKeepsAllKeys(job: Job, deferred: seq<Fk>)
    requires KeysNotNull(job)
    requires forall d | d in deferred :: job.nullable(d.child, d.col)
    ensures AllKeysHold(job, FirstPass(job, deferred)) <==> AllKeysHold(job, Direct(job))
  {
    forall t | t in job.tables
      ensures KeysHold(job, t, RowsOf(FirstPass(job, deferred), t)) <==> KeysHold(job, t, RowsOf(Direct(job), t))
    {
      BlankingKeepsKeys(job, deferred, t);
    }
  }

  /** A stored password is the hash of a legacy one; an empty one or a number is as it was. */
  ghost predicate HashedFrom(job: Job, v: Value) {
    exists raw | raw in RowsOf(job.source, "tblSecUser") && "Password" in raw ::
      match raw["Password"]
      case Num(n) => v == Num(n)
      case Text(s) => v == Text(if s == "" then "" else job.hash(s))
  }

  /** Every password that the two passes leave in the database comes from hashing. */
  lemma LoadedPasswordsAreHashed(job: Job, deferred: seq<Fk>, r: Row)
    requires r in FilledRows(job, deferred, |deferred|, "tblSecUser") && "Password" in r
    ensures HashedFrom(job, r["Password"])
  {
    var i :| 0 <= i < |Kept(job, "tblSecUser")| && FilledRows(job, deferred, |deferred|, "tblSecUser")[i] == r;
    var kept := Kept(job, "tblSecUser")[i];
    assert kept in Kept(job, "tblSecUser") && r["Password"] == kept["Password"];
    CleanRowsMembers(job, "tblSecUser", RowsOf(job.source, "tblSecUser"));
    var raw :| raw in RowsOf(job.source, "tblSecUser") && kept == Cleaned(job, "tblSecUser", raw);
    PasswordIsHashed(job, raw);
  }

  /* ---------- when the cleaned rows are consistent ---------- */

  /** Cleaning leaves the referenced columns and the referencing values alone. */
  ghost predicate KeysUntouched(job: Job) {
    forall f | f in job.fks && IsEdge(job.tables, f) ::
      && !job.nullable(f.parent, f.pcol)
      && f.pcol !in SentinelsOf(job, f.parent)
      && (f.parent, f.pcol) != ("tblSecUser", "Password")
      && (f.child, f.col) != ("tblSecUser", "Password")
  }

  /** Values of a referenced column that survive in no kept row of the parent. */
  function LostKeys(job: Job, f: Fk): set<Value> {
    Keys(RowsOf(job.source, f.parent), f.pcol) - Keys(Kept(job, f.parent), f.pcol)
  }

  /** What a kept row still references is a value of the legacy parent, lost or kept. */
  lemma KeptNamesLegacyParent(job: Job, f: Fk, r: Row)
    requires KeysUntouched(job) && f in job.fks && IsEdge(job.tables, f) && r in Kept(job, f.child) && f.col in r
    ensures r[f.col] in Keys(RowsOf(job.source, f.parent), f.pcol)
    ensures r[f.col] in LostKeys(job, f) <==> r[f.col] !in Keys(Kept(job, f.parent), f.pcol)
  {
    CleanRowsMembers(job, f.child, RowsOf(job.source, f.child));
    var raw :| raw in RowsOf(job.source, f.child) && !Skipped(job, f.child, raw) && r == Cleaned(job, f.child, raw);
    KeptHasNoOrphan(job, f.child, raw, f);
  }

  /** The cleaned rows are consistent exactly when none of them references a skipped parent. */
  lemma ConsistentIffNoLostParent(job: Job)
    requires KeysUntouched(job)
    ensures Consistent(job, Direct(job)) <==>
            forall f, r | f in job.fks && IsEdge(job.tables, f) && r in Kept(job, f.child) && f.col in r ::
              r[f.col] !in LostKeys(job, f)
  {
    forall f, r | f in job.fks && IsEdge(job.tables, f) && r in Kept(job, f.child) && f.col in r
      ensures r[f.col] in LostKeys(job, f) <==> r[f.col] !in Keys(Kept(job, f.parent), f.pcol)
    {
      KeptNamesLegacyParent(job, f, r);
    }
    if Consistent(job, Direct(job)) {
      forall f, r | f in job.fks && IsEdge(job.tables, f) && r in Kept(job, f.child) && f.col in r
        ensures r[f.col] !in LostKeys(job, f)
      {
        assert RowConsistent(job, Direct(job), f.child, r);
      }
    }
  }

  /** No kept row references a skipped parent through a key that is not deferred. */
  ghost predicate NoActiveLoss(job: Job, deferred: seq<Fk>) {
    forall f, r | f in job.fks && IsEdge(job.tables, f) && f !in deferred && r in Kept(job, f.child) && f.col in r ::
      r[f.col] !in LostKeys(job, f)
  }

  /** Blanking takes the deferred columns of a table and no other foreign key's. */
  lemma UndeferredStays(job: Job, deferred: seq<Fk>, f: Fk)
    requires OneKeyPerColumn(job.fks) && f in job.fks && forall d | d in deferred :: d in job.fks
    ensures f.col in DeferredCols(deferred, f.child) <==> f in deferred
  {
    forall d | d in deferred && d.child == f.child && d != f ensures d.col != f.col {
      DifferentKeysDiffer(job.fks, d, f);
    }
  }

  /** A referenced value is in the first pass exactly when its parent row was kept. */
  lemma FirstPassNames(job: Job, deferred: seq<Fk>, f: Fk, r: Row)
    requires forall d | d in deferred :: d in job.fks && IsEdge(job.tables, d) && job.nullable(d.child, d.col)
    requires ReferencesNotNull(job) && KeysUntouched(job)
    requires f in job.fks && IsEdge(job.tables, f) && r in Kept(job, f.child) && f.col in r
    ensures r[f.col] in Keys(RowsOf(FirstPass(job, deferred), f.parent), f.pcol) <==> r[f.col] !in LostKeys(job, f)
  {
    FilledStartsAtFirstPass(job, deferred);
    ReferencedKeysStable(job, deferred, 0, f);
    KeptNamesLegacyParent(job, f, r);
  }

  /** The first pass is consistent exactly when no undeferred key references a skipped parent. */
  lemma FirstPassIffNoActiveLoss(job: Job, order: seq<string>, deferred: seq<Fk>)
    requires Planned(job, order, deferred) && OneKeyPerColumn(job.fks) && KeysUntouched(job)
    ensures Consistent(job, FirstPass(job, deferred)) <==> NoActiveLoss(job, deferred)
  {
    var first := FirstPass(job, deferred);
    if Consistent(job, first) {
      forall f, r | f in job.fks && IsEdge(job.tables, f) && f !in deferred && r in Kept(job, f.child) && f.col in r
        ensures r[f.col] !in LostKeys(job, f)
      {
        UndeferredStays(job, deferred, f);
        var i :| 0 <= i < |Kept(job, f.child)| && Kept(job, f.child)[i] == r;
        assert first[f.child][i] in RowsOf(first, f.child);
        assert RowConsistent(job, first, f.child, first[f.child][i]);
        FirstPassNames(job, deferred, f, r);
      }
    }
    if NoActiveLoss(job, deferred) {
      forall t, r | t in job.tables && r in RowsOf(first, t) ensures RowConsistent(job, first, t, r) {
        var i :| 0 <= i < |first[t]| && first[t][i] == r;
        var kept := Kept(job, t)[i];
        forall f | f in job.fks && IsEdge(job.tables, f) && f.child == t && f.col in r
          ensures r[f.col] in Keys(RowsOf(first, f.parent), f.pcol)
        {
          UndeferredStays(job, deferred, f);
          assert kept in Kept(job, t);
          FirstPassNames(job, deferred, f, kept);
        }
      }
    }
  }

  /** What the whole load makes of a cleaned row: it loses its deferred references to skipped parents, no more. */
  lemma LoadedRowExact(job: Job, deferred: seq<Fk>, t: string, i: nat)
    requires forall d | d in deferred :: d in job.fks && IsEdge(job.tables, d)
    requires KeysUntouched(job) && i < |Kept(job, t)|
    ensures var row, loaded := Kept(job, t)[i], FilledRows(job, deferred, |deferred|, t)[i];
            && (forall c :: c in loaded <==>
                  c in row && !exists d :: d in deferred && d.child == t && d.col == c && row[c] in LostKeys(job, d))
            && (forall c | c in loaded :: loaded[c] == row[c])
  {
    var row := Kept(job, t)[i];
    assert row in Kept(job, t);
    forall c | c in row
      ensures c in Unfilled(job, deferred, |deferred|, t, row) <==>
              exists d :: d in deferred && d.child == t && d.col == c && row[c] in LostKeys(job, d)
    {
      forall d | d in deferred && d.child == t && d.col == c
        ensures Resolves(job, d, row) <==> row[c] !in LostKeys(job, d)
      {
        KeptNamesLegacyParent(job, d, row);
      }
      if c in Unfilled(job, deferred, |deferred|, t, row) {
        var k :| 0 <= k < |deferred| && deferred[k].child == t
                 && !Resolves(job, deferred[k], row) && deferred[k].col == c;
        assert deferred[k] in deferred;
      }
    }
  }

  /** With no parent row skipped, only a repeated primary key can stop the load, and deferring is invisible. */
  lemma NoSkipLoadsDirectly(job: Job, order: seq<string>, deferred: seq<Fk>)
    requires Planned(job, order, deferred) && OneKeyPerColumn(job.fks) && KeysUntouched(job)
    requires forall f, raw | f in job.fks && IsEdge(job.tables, f) && raw in RowsOf(job.source, f.parent) ::
               !Skipped(job, f.parent, raw)
    ensures Consistent(job, FirstPass(job, deferred))
    ensures Filled(job, deferred, |deferred|) == Direct(job)
    ensures Consistent(job, Direct(job))
    ensures KeysNotNull(job) ==> (Sound(job, FirstPass(job, deferred)) <==> AllKeysHold(job, Direct(job)))
  {
    if KeysNotNull(job) { BlankingKeepsAllKeys(job, deferred); }
    forall f | f in job.fks && IsEdge(job.tables, f) ensures LostKeys(job, f) == {} {
      forall v | v in Keys(RowsOf(job.source, f.parent), f.pcol) ensures v in Keys(Kept(job, f.parent), f.pcol) {
        var raw :| raw in RowsOf(job.source, f.parent) && f.pcol in raw && raw[f.pcol] == v;
        CleanRowsMembers(job, f.parent, RowsOf(job.source, f.parent));
        var r := Cleaned(job, f.parent, raw);
        assert r in Kept(job, f.parent) && f.pcol in r && r[f.pcol] == v;
      }
    }
    ConsistentIffNoLostParent(job);
    TwoPhaseEqualsDirect(job, order, deferred);
  }
}
