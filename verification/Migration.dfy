/**
 * The migration run itself: truncate, load each table in the planned order, then fill the
 * deferred keys. Statements that the database or the driver refuses end the run.
 */
module Migration {
  import opened Sequences
  import opened LoadOrder
  import opened Loader

  const CHUNK := 250

  function UpdateRow(pk: set<string>, key: Row, col: string, v: Value, row: Row): Row {
    if SameKey(pk, row, key) then row[col := v] else row
  }

  /** UPDATE ... SET col = v WHERE the primary key equals that of `key`. */
  function UpdateByKey(pk: set<string>, key: Row, col: string, v: Value, rows: seq<Row>): (r: seq<Row>)
    ensures |r| == |rows| && forall i | 0 <= i < |r| :: r[i] == UpdateRow(pk, key, col, v, rows[i])
  {
    seq(|rows|, i requires 0 <= i < |rows| => UpdateRow(pk, key, col, v, rows[i]))
  }

  method BuildParentKeys(job: Job, t: string) returns (ok: bool, parentKeys: map<string, set<Value>>)
    requires OneKeyPerColumn(job.fks)
    ensures ok <==> forall f | f in job.fks && Checked(job, t, f) :: f.parent in job.source
    ensures ok ==> forall f | f in job.fks && Checked(job, t, f) ::
                     f.col in parentKeys && parentKeys[f.col] == Keys(RowsOf(job.source, f.parent), f.pcol)
  {
    parentKeys := map[];
    for k := 0 to |job.fks|
      invariant forall f | f in job.fks[..k] && Checked(job, t, f) :: f.parent in job.source
      invariant forall f | f in job.fks[..k] && Checked(job, t, f) ::
          f.col in parentKeys && parentKeys[f.col] == Keys(RowsOf(job.source, f.parent), f.pcol)
    {
      var f := job.fks[k];
      assert job.fks[..k + 1] == job.fks[..k] + [f];
      if Checked(job, t, f) {
        if f.parent !in job.source {
          return false, map[];
        }
        parentKeys := parentKeys[f.col := Keys(job.source[f.parent], f.pcol)];
      }
    }
    assert job.fks[..|job.fks|] == job.fks;
    ok := true;
  }

  lemma EarlierKeysDiffer(fks: seq<Fk>, k: nat)
    requires OneKeyPerColumn(fks) && k < |fks|
    ensures forall g | g in fks[..k] && g.child == fks[k].child :: g.col != fks[k].col
  {
    forall g | g in fks[..k] && g.child == fks[k].child ensures g.col != fks[k].col {
      var i :| 0 <= i < k && fks[..k][i] == g;
      assert fks[i] == g;
    }
  }

  /** The columns the first `k` keys null, and whether one of those keys skips the row. */
  function NulledBy(job: Job, t: string, row: Row, k: nat): set<string>
    requires k <= |job.fks|
  {
    set f | f in job.fks[..k] && Checked(job, t, f) && Orphan(job, row, f) && job.nullable(t, f.col) :: f.col
  }

  ghost predicate SkippedBy(job: Job, t: string, row: Row, k: nat)
    requires k <= |job.fks|
  {
    exists f | f in job.fks[..k] :: Checked(job, t, f) && Orphan(job, row, f) && !job.nullable(t, f.col)
  }

  lemma OneMoreKey(job: Job, t: string, row: Row, k: nat)
    requires OneKeyPerColumn(job.fks) && k < |job.fks|
    ensures var f := job.fks[k];
            var orphan := Checked(job, t, f) && Orphan(job, row, f);
            && NulledBy(job, t, row, k + 1) ==
               NulledBy(job, t, row, k) + (if orphan && job.nullable(t, f.col) then {f.col} else {})
            && (SkippedBy(job, t, row, k + 1) <==> SkippedBy(job, t, row, k) || (orphan && !job.nullable(t, f.col)))
            && (Checked(job, t, f) ==> f.col !in NulledBy(job, t, row, k))
  {
    assert job.fks[..k + 1] == job.fks[..k] + [job.fks[k]];
    EarlierKeysDiffer(job.fks, k);
  }

  lemma AllKeys(job: Job, t: string, row: Row)
    ensures NulledBy(job, t, row, |job.fks|) == OrphanCols(job, t, row)
    ensures SkippedBy(job, t, ClearSentinels(job, t, row), |job.fks|) <==> Skipped(job, t, row)
  {
    assert job.fks[..|job.fks|] == job.fks;
  }

  method CleanRow(job: Job, t: string, raw: Row, parentKeys: map<string, set<Value>>) returns (row: Row, skip: bool)
    requires OneKeyPerColumn(job.fks)
    requires forall f | f in job.fks && Checked(job, t, f) ::
               f.col in parentKeys && parentKeys[f.col] == Keys(RowsOf(job.source, f.parent), f.pcol)
    ensures skip <==> Skipped(job, t, raw)
    ensures !skip ==> row == Cleaned(job, t, raw)
    ensures !skip && t == "tblSecUser" && "Password" in row ==>
              && "Password" in raw
              && row["Password"] == match raw["Password"]
                                    case Num(n) => Num(n)
                                    case Text(s) => Text(if s == "" then "" else job.hash(s))
  {
    row, skip := ClearSentinels(job, t, raw), false;
    ghost var start := row;
    for k := 0 to |job.fks|
      invariant skip <==> SkippedBy(job, t, start, k)
      invariant row == start - NulledBy(job, t, start, k)
    {
      var f := job.fks[k];
      OneMoreKey(job, t, start, k);
      if Checked(job, t, f) && f.col in row && row[f.col] !in parentKeys[f.col] {
        if job.nullable(t, f.col) {
          row := row - {f.col};
        } else {
          skip := true;
        }
      }
    }
    AllKeys(job, t, start);
    AllKeys(job, t, raw);
    row := HashPassword(job, t, row);
    if !skip && t == "tblSecUser" && "Password" in row {
      PasswordIsHashed(job, raw);
    }
  }

  /* ---------- the passes, step by step ---------- */

  /** Inserting after its undeferred parents, a table is checked against the finished pass. */
  lemma ParentsAreLoaded(job: Job, order: seq<string>, deferred: seq<Fk>, i: nat, db: Db, row: Row)
    requires Planned(job, order, deferred) && i < |order|
    requires forall j | 0 <= j < i :: RowsOf(db, order[j]) == RowsOf(FirstPass(job, deferred), order[j])
    requires row in Blanked(Kept(job, order[i]), DeferredCols(deferred, order[i]))
    ensures RowConsistent(job, db, order[i], row) <==> RowConsistent(job, FirstPass(job, deferred), order[i], row)
  {
    forall f | f in job.fks && IsEdge(job.tables, f) && f.child == order[i] && f.col in row
      ensures RowsOf(db, f.parent) == RowsOf(FirstPass(job, deferred), f.parent)
    {
      forall d | d in deferred && d.child == order[i] ensures d.col !in row {
        assert d.col in DeferredCols(deferred, order[i]);
      }
      var j :| 0 <= j < i && order[..i][j] == f.parent;
      assert order[j] == f.parent;
    }
  }

  ghost predicate TableSound(job: Job, db: Db, t: string) {
    (forall r | r in RowsOf(db, t) :: RowConsistent(job, db, t, r)) && KeysHold(job, t, RowsOf(db, t))
  }

  /** What the inserts of all the rows of `t` together check against the tables loaded so far. */
  ghost predicate Insertable(job: Job, db: Db, t: string, rows: seq<Row>) {
    (forall r | r in rows :: RowConsistent(job, db, t, r)) && KeysHold(job, t, rows)
  }

  /** The part of the database `full` that the first `i` tables of the order make up. */
  function PartOf(full: Db, order: seq<string>, i: nat): Db
    requires i <= |order|
  {
    map t | t in full :: if t in order[..i] then full[t] else []
  }

  lemma PartGrows(full: Db, order: seq<string>, tables: seq<string>, i: nat)
    requires Orders(order, tables) && full.Keys == (set t | t in tables) && i < |order|
    ensures order[i] in full && PartOf(full, order, i)[order[i]] == []
    ensures PartOf(full, order, i + 1) == PartOf(full, order, i)[order[i] := full[order[i]]]
    ensures forall j | 0 <= j < i :: RowsOf(PartOf(full, order, i), order[j]) == RowsOf(full, order[j])
  {
    SameMembers(order, tables);
    assert order[..i + 1] == order[..i] + [order[i]];
    assert forall j | 0 <= j < i :: order[j] in order[..i];
  }

  lemma LoadStep(job: Job, order: seq<string>, deferred: seq<Fk>, i: nat)
    requires Planned(job, order, deferred) && i < |order|
    ensures var t, first, db := order[i], FirstPass(job, deferred), PartOf(FirstPass(job, deferred), order, i);
            && t in db && db[t] == [] && t in job.tables
            && RowsOf(first, t) == Blanked(Kept(job, t), DeferredCols(deferred, t))
            && PartOf(FirstPass(job, deferred), order, i + 1) == db[t := RowsOf(first, t)]
            && (Insertable(job, db, t, RowsOf(first, t)) <==> TableSound(job, first, t))
  {
    PartGrows(FirstPass(job, deferred), order, job.tables, i);
    var t, db := order[i], PartOf(FirstPass(job, deferred), order, i);
    forall r | r in RowsOf(FirstPass(job, deferred), t)
      ensures RowConsistent(job, db, t, r) <==> RowConsistent(job, FirstPass(job, deferred), t, r)
    {
      ParentsAreLoaded(job, order, deferred, i, db, r);
    }
  }

  ghost predicate SoundUpTo(job: Job, deferred: seq<Fk>, order: seq<string>, i: nat)
    requires i <= |order|
  {
    forall j | 0 <= j < i :: TableSound(job, FirstPass(job, deferred), order[j])
  }

  lemma SoundByTable(job: Job, db: Db)
    ensures Sound(job, db) <==> forall t | t in job.tables :: TableSound(job, db, t)
  {
    assert forall t | t in job.tables :: TableSound(job, db, t) ==> KeysHold(job, t, RowsOf(db, t));
  }

  lemma PartEnds(full: Db, order: seq<string>, tables: seq<string>)
    requires Orders(order, tables) && full.Keys == (set t | t in tables)
    ensures PartOf(full, order, 0) == map t | t in order :: []
    ensures PartOf(full, order, |order|) == full
  {
    SameMembers(order, tables);
    assert order[..|order|] == order;
  }

  lemma PassComplete(job: Job, order: seq<string>, deferred: seq<Fk>)
    requires Orders(order, job.tables)
    ensures SoundUpTo(job, deferred, order, |order|) <==> Sound(job, FirstPass(job, deferred))
    ensures forall i | 0 <= i < |order| && !TableSound(job, FirstPass(job, deferred), order[i]) ::
              !Sound(job, FirstPass(job, deferred))
  {
    SameMembers(order, job.tables);
    SoundByTable(job, FirstPass(job, deferred));
    forall t | SoundUpTo(job, deferred, order, |order|) && t in job.tables
      ensures TableSound(job, FirstPass(job, deferred), t)
    {
      var j :| 0 <= j < |order| && order[j] == t;
      assert TableSound(job, FirstPass(job, deferred), order[j]);
    }
  }

  /** The pre-blanking copies once `t` has been loaded. */
  function SavedRows(job: Job, saved: Db, t: string, deferred: seq<Fk>): Db {
    if RowsOf(job.source, t) == [] || DeferredCols(deferred, t) == {} then saved else saved[t := Kept(job, t)]
  }

  ghost predicate Saved(job: Job, saved: Db, order: seq<string>, deferred: seq<Fk>, i: nat)
    requires i <= |order|
  {
    && (forall j | 0 <= j < i && DeferredCols(deferred, order[j]) != {} ::
          RowsOf(saved, order[j]) == Kept(job, order[j]))
    && (forall j | i <= j < |order| :: order[j] !in saved)
  }

  lemma SavedStep(job: Job, saved: Db, order: seq<string>, deferred: seq<Fk>, i: nat)
    requires Planned(job, order, deferred) && i < |order| && Saved(job, saved, order, deferred, i)
    ensures Saved(job, SavedRows(job, saved, order[i], deferred), order, deferred, i + 1)
  {
  }

  lemma SavedAll(job: Job, saved: Db, order: seq<string>, deferred: seq<Fk>)
    requires Planned(job, order, deferred) && Saved(job, saved, order, deferred, |order|)
    ensures SavedFor(job, saved, deferred)
  {
    SameMembers(order, job.tables);
    forall d | d in deferred ensures RowsOf(saved, d.child) == Kept(job, d.child) {
      var j :| 0 <= j < |order| && order[j] == d.child;
      assert d.col in DeferredCols(deferred, d.child);
    }
  }

  /** Filling one more key gives its column back to the rows whose value resolves. */
  lemma UnfilledStep(job: Job, deferred: seq<Fk>, m: nat, t: string, row: Row)
    requires OneKeyPerColumn(deferred) && m < |deferred|
    ensures Unfilled(job, deferred, m + 1, t, row) ==
            if deferred[m].child == t && Resolves(job, deferred[m], row)
            then Unfilled(job, deferred, m, t, row) - {deferred[m].col}
            else Unfilled(job, deferred, m, t, row)
  {
    var d := deferred[m];
    forall c ensures c in Unfilled(job, deferred, m + 1, t, row) <==>
                     c in Unfilled(job, deferred, m, t, row) && !(d.child == t && Resolves(job, d, row) && c == d.col)
    {
      if c in Unfilled(job, deferred, m, t, row) {
        var k :| 0 <= k < |deferred| && deferred[k].child == t
                 && (k >= m || !Resolves(job, deferred[k], row)) && deferred[k].col == c;
        assert k != m ==> deferred[k].child != d.child || deferred[k].col != d.col;
      }
    }
  }

  /** The rows of the child while key `m` is being filled: the first `n` are done. */
  function HalfFilled(job: Job, deferred: seq<Fk>, m: nat, n: nat, t: string): (r: seq<Row>)
    requires n <= |Kept(job, t)|
    ensures |r| == |Kept(job, t)|
    ensures forall i | 0 <= i < |r| ::
              r[i] == if i < n then FilledRows(job, deferred, m + 1, t)[i] else FilledRows(job, deferred, m, t)[i]
  {
    FilledRows(job, deferred, m + 1, t)[..n] + FilledRows(job, deferred, m, t)[n..]
  }

  /** Deferred columns are nullable and key columns are not, so keys stay readable. */
  lemma KeyColumnsKept(job: Job, deferred: seq<Fk>, m: nat, t: string, i: nat)
    requires t in job.pk && KeysNotNull(job) && i < |Kept(job, t)|
    requires forall d | d in deferred :: job.nullable(d.child, d.col)
    ensures forall key :: SameKey(job.pk[t], FilledRows(job, deferred, m, t)[i], key) <==>
                          SameKey(job.pk[t], Kept(job, t)[i], key)
  {
    var row := Kept(job, t)[i];
    forall k | k in job.pk[t]
      ensures k in FilledRows(job, deferred, m, t)[i] <==> k in row
      ensures k in row ==> FilledRows(job, deferred, m, t)[i][k] == row[k]
    {
      forall j | 0 <= j < |deferred| && deferred[j].child == t ensures deferred[j].col != k {
        assert deferred[j] in deferred;
      }
    }
  }

  lemma KeyNamesOneRow(job: Job, deferred: seq<Fk>, m: nat, t: string, n: nat, i: nat)
    requires t in job.pk && KeysNotNull(job) && KeysHold(job, t, Kept(job, t))
    requires n < |Kept(job, t)| && i < |Kept(job, t)|
    requires forall d | d in deferred :: job.nullable(d.child, d.col)
    ensures SameKey(job.pk[t], FilledRows(job, deferred, m, t)[i], Kept(job, t)[n]) <==> i == n
  {
    KeyColumnsKept(job, deferred, m, t, i);
    assert Kept(job, t)[n] in Kept(job, t);
  }

  lemma FilledRowGains(job: Job, deferred: seq<Fk>, m: nat, n: nat)
    requires OneKeyPerColumn(deferred) && m < |deferred| && n < |Kept(job, deferred[m].child)|
    requires Resolves(job, deferred[m], Kept(job, deferred[m].child)[n])
    ensures var d, row := deferred[m], Kept(job, deferred[m].child)[n];
            FilledRows(job, deferred, m + 1, d.child)[n] ==
            FilledRows(job, deferred, m, d.child)[n][d.col := row[d.col]]
  {
    UnfilledStep(job, deferred, m, deferred[m].child, Kept(job, deferred[m].child)[n]);
  }

  lemma FilledRowKept(job: Job, deferred: seq<Fk>, m: nat, n: nat)
    requires OneKeyPerColumn(deferred) && m < |deferred| && n < |Kept(job, deferred[m].child)|
    requires !Resolves(job, deferred[m], Kept(job, deferred[m].child)[n])
    ensures FilledRows(job, deferred, m + 1, deferred[m].child)[n] == FilledRows(job, deferred, m, deferred[m].child)[n]
  {
    UnfilledStep(job, deferred, m, deferred[m].child, Kept(job, deferred[m].child)[n]);
  }

  /** The UPDATE for row `n` reaches that row and no other. */
  lemma UpdateFillsOneRow(job: Job, deferred: seq<Fk>, m: nat, n: nat)
    requires OneKeyPerColumn(deferred) && m < |deferred|
    requires forall d | d in deferred :: job.nullable(d.child, d.col)
    requires deferred[m].child in job.pk && KeysNotNull(job)
    requires KeysHold(job, deferred[m].child, Kept(job, deferred[m].child)) && n < |Kept(job, deferred[m].child)|
    ensures var d, row := deferred[m], Kept(job, deferred[m].child)[n];
            HalfFilled(job, deferred, m, n + 1, d.child) ==
            if Resolves(job, d, row)
            then UpdateByKey(job.pk[d.child], row, d.col, row[d.col], HalfFilled(job, deferred, m, n, d.child))
            else HalfFilled(job, deferred, m, n, d.child)
  {
    var d := deferred[m];
    var row := Kept(job, d.child)[n];
    var before, after := HalfFilled(job, deferred, m, n, d.child), HalfFilled(job, deferred, m, n + 1, d.child);
    if Resolves(job, d, row) {
      FilledRowGains(job, deferred, m, n);
      forall i | 0 <= i < |before|
        ensures after[i] == UpdateRow(job.pk[d.child], row, d.col, row[d.col], before[i])
      {
        KeyNamesOneRow(job, deferred, m, d.child, n, i);
        KeyNamesOneRow(job, deferred, m + 1, d.child, n, i);
      }
    } else {
      FilledRowKept(job, deferred, m, n);
    }
  }

  /** The database while key `m` is being filled: the first `n` rows of its child are done. */
  function HalfDone(job: Job, deferred: seq<Fk>, m: nat, n: nat): Db
    requires m < |deferred| && n <= |Kept(job, deferred[m].child)|
  {
    Filled(job, deferred, m)[deferred[m].child := HalfFilled(job, deferred, m, n, deferred[m].child)]
  }

  /** UPDATE ... WHERE the primary key is the row's AND EXISTS a parent with the saved value. */
  function GuardedUpdate(job: Job, d: Fk, r: Row, db: Db): Db
    requires d.parent in db && d.child in db && d.child in job.pk
  {
    if d.col in r && r[d.col] in Keys(db[d.parent], d.pcol)
    then db[d.child := UpdateByKey(job.pk[d.child], r, d.col, r[d.col], db[d.child])]
    else db
  }

  /** What the schema and a finished first pass guarantee for the filling of key `m`. */
  ghost predicate Fillable(job: Job, deferred: seq<Fk>, m: nat)
    requires m < |deferred|
  {
    && OneKeyPerColumn(deferred) && ReferencesNotNull(job) && KeysNotNull(job)
    && (forall d | d in deferred :: d in job.fks && IsEdge(job.tables, d) && job.nullable(d.child, d.col))
    && deferred[m].child in job.pk && KeysHold(job, deferred[m].child, Kept(job, deferred[m].child))
  }

  ghost predicate AllFillable(job: Job, deferred: seq<Fk>) {
    forall m | 0 <= m < |deferred| :: Fillable(job, deferred, m)
  }

  /** The copies saved in the first pass, as the second pass needs them. */
  ghost predicate SavedFor(job: Job, saved: Db, deferred: seq<Fk>) {
    forall d | d in deferred :: RowsOf(saved, d.child) == Kept(job, d.child)
  }

  lemma FirstPassIsFillable(job: Job, order: seq<string>, deferred: seq<Fk>)
    requires ReferencesNotNull(job) && KeysNotNull(job) && Planned(job, order, deferred)
    requires forall d | d in deferred :: d.child in job.pk
    requires AllKeysHold(job, FirstPass(job, deferred))
    ensures AllFillable(job, deferred)
    ensures Filled(job, deferred, 0) == FirstPass(job, deferred)
  {
    BlankingKeepsAllKeys(job, deferred);
    FilledStartsAtFirstPass(job, deferred);
    forall m | 0 <= m < |deferred| ensures Fillable(job, deferred, m) {
      var d := deferred[m];
      assert d in deferred;
      assert KeysHold(job, d.child, RowsOf(Direct(job), d.child));
    }
  }

  lemma FilledIsSound(job: Job, order: seq<string>, deferred: seq<Fk>)
    requires OneKeyPerColumn(job.fks) && ReferencesNotNull(job) && KeysNotNull(job) && Planned(job, order, deferred)
    requires Sound(job, FirstPass(job, deferred))
    ensures Sound(job, Filled(job, deferred, |deferred|))
  {
    BlankingKeepsAllKeys(job, deferred);
    FilledIsConsistent(job, deferred);
    FillingKeepsAllKeys(job, deferred, |deferred|);
  }

  /** That update, run against the database half way through filling key `m`. */
  lemma GuardedUpdateStep(job: Job, deferred: seq<Fk>, m: nat, n: nat)
    requires m < |deferred| && Fillable(job, deferred, m) && n < |Kept(job, deferred[m].child)|
    ensures var d, row := deferred[m], Kept(job, deferred[m].child)[n];
            var db := HalfDone(job, deferred, m, n);
            && d.parent in db && d.child in db
            && HalfDone(job, deferred, m, n + 1) == GuardedUpdate(job, d, row, db)
  {
    var d := deferred[m];
    assert d in deferred;
    ReferencedKeysStable(job, deferred, m, d);
    UpdateFillsOneRow(job, deferred, m, n);
  }

  lemma OthersUnfilled(job: Job, deferred: seq<Fk>, m: nat, t: string)
    requires OneKeyPerColumn(deferred) && m < |deferred| && t != deferred[m].child
    ensures FilledRows(job, deferred, m + 1, t) == FilledRows(job, deferred, m, t)
  {
    forall row ensures Unfilled(job, deferred, m + 1, t, row) == Unfilled(job, deferred, m, t, row) {
      UnfilledStep(job, deferred, m, t, row);
    }
  }

  lemma FillStep(job: Job, deferred: seq<Fk>, m: nat)
    requires OneKeyPerColumn(deferred) && m < |deferred| && deferred[m].child in job.tables
    ensures HalfDone(job, deferred, m, 0) == Filled(job, deferred, m)
    ensures HalfDone(job, deferred, m, |Kept(job, deferred[m].child)|) == Filled(job, deferred, m + 1)
  {
    var t := deferred[m].child;
    assert HalfFilled(job, deferred, m, 0, t) == FilledRows(job, deferred, m, t);
    assert HalfFilled(job, deferred, m, |Kept(job, t)|, t) == FilledRows(job, deferred, m + 1, t);
    forall u | u in job.tables && u != t
      ensures FilledRows(job, deferred, m + 1, u) == FilledRows(job, deferred, m, u)
    {
      OthersUnfilled(job, deferred, m, u);
    }
  }

  /** Every table a checked key references exists in the legacy database. */
  ghost predicate ParentsExist(job: Job) {
    forall t, f | t in job.tables && f in job.fks && Checked(job, t, f) :: f.parent in job.source
  }

  /** The database accepts an INSERT whose rows have their parents and break no primary key. */
  predicate AcceptsChunk(job: Job, db: Db, t: string, chunk: seq<Row>)
    requires t in db
  {
    (forall r | r in chunk :: RowConsistent(job, db, t, r)) && KeysHold(job, t, db[t] + chunk)
  }

  lemma PartInsertable(job: Job, db: Db, t: string, rows: seq<Row>, i: nat)
    requires Insertable(job, db, t, rows) && i <= |rows|
    ensures Insertable(job, db, t, rows[..i])
  {
  }

  lemma ChunkStep(job: Job, db: Db, t: string, rows: seq<Row>, i: nat, next: nat)
    requires i <= next <= |rows| && t in db && Insertable(job, db, t, rows[..i])
    ensures AcceptsChunk(job, db[t := rows[..i]], t, rows[i..next]) <==> Insertable(job, db, t, rows[..next])
    ensures Insertable(job, db, t, rows) ==> Insertable(job, db, t, rows[..next])
    ensures rows[..i] + rows[i..next] == rows[..next]
  {
    assert rows[..i] + rows[i..next] == rows[..next];
    if Insertable(job, db, t, rows) {
      PartInsertable(job, db, t, rows, next);
    }
    assert forall r :: r in rows[..next] <==> r in rows[..i] || r in rows[i..next];
    forall r ensures RowConsistent(job, db[t := rows[..i]], t, r) <==> RowConsistent(job, db, t, r) {
    }
    assert db[t := rows[..i]][t] + rows[i..next] == rows[..next];
  }

  lemma FillingKeepsAllKeys(job: Job, deferred: seq<Fk>, m: nat)
    requires KeysNotNull(job) && AllKeysHold(job, Direct(job))
    requires forall d | d in deferred :: job.nullable(d.child, d.col)
    ensures AllKeysHold(job, Filled(job, deferred, m))
  {
    forall t | t in job.tables && t in job.pk ensures KeysHold(job, t, FilledRows(job, deferred, m, t)) {
      var rows, filled := Kept(job, t), FilledRows(job, deferred, m, t);
      assert KeysHold(job, t, RowsOf(Direct(job), t));
      forall i, j | 0 <= i < |rows| && 0 <= j < |rows|
        ensures SameKey(job.pk[t], filled[i], filled[j]) <==> i == j
      {
        KeyColumnsKept(job, deferred, m, t, i);
        KeyNamesOneRow(job, deferred, m, t, j, i);
        KeyColumnsKept(job, deferred, m, t, j);
      }
    }
  }

  class Migration {
    const job: Job
    var target: Db
    /** The cleaned rows of tables with deferred columns, as they were before blanking. */
    var sourceRows: Db

    constructor (job: Job)
      ensures this.job == job && target == map[] && sourceRows == map[]
    {
      this.job := job;
      target, sourceRows := map[], map[];
    }

    method Truncate(order: seq<string>)
      modifies this
      ensures target == map t | t in order :: []
      ensures sourceRows == map[]
    {
      target, sourceRows := map t | t in order :: [], map[];
    }

    /** One multi-row INSERT, applied as a whole or not at all. */
    method InsertChunk(t: string, chunk: seq<Row>) returns (ok: bool)
      requires t in target
      modifies this`target
      ensures ok <==> AcceptsChunk(job, old(target), t, chunk)
      ensures target == if ok then old(target)[t := old(target)[t] + chunk] else old(target)
    {
      ok := AcceptsChunk(job, target, t, chunk);
      if ok {
        target := target[t := target[t] + chunk];
      }
    }

    /** The rows go in chunk by chunk, which checks no less than one statement would. */
    method InsertRows(t: string, rows: seq<Row>) returns (ok: bool)
      requires t in target && target[t] == []
      modifies this`target
      ensures ok <==> Insertable(job, old(target), t, rows)
      ensures ok ==> target == old(target)[t := rows]
    {
      var i := 0;
      while i < |rows|
        invariant i <= |rows|
        invariant target == old(target)[t := rows[..i]]
        invariant Insertable(job, old(target), t, rows[..i])
      {
        var next := if i + CHUNK < |rows| then i + CHUNK else |rows|;
        ChunkStep(job, old(target), t, rows, i, next);
        ok := InsertChunk(t, rows[i..next]);
        if !ok {
          return;
        }
        i := next;
      }
      assert rows[..|rows|] == rows;
      ok := true;
    }

    method LoadTable(t: string, deferred: seq<Fk>) returns (outcome: Outcome)
      requires OneKeyPerColumn(job.fks)
      requires t in target && target[t] == []
      modifies this
      ensures outcome == Loaded || outcome == Refused || outcome == NoSourceTable
      ensures outcome == NoSourceTable <==>
              RowsOf(job.source, t) != [] && exists f | f in job.fks :: Checked(job, t, f) && f.parent !in job.source
      ensures outcome != NoSourceTable ==>
                (outcome == Loaded <==>
                 Insertable(job, old(target), t, Blanked(Kept(job, t), DeferredCols(deferred, t))))
      ensures outcome == Loaded ==> target == old(target)[t := Blanked(Kept(job, t), DeferredCols(deferred, t))]
      ensures outcome == Loaded ==> sourceRows == SavedRows(job, old(sourceRows), t, deferred)
    {
      var recordset := RowsOf(job.source, t);
      if recordset == [] {
        assert target[t] == Blanked(Kept(job, t), DeferredCols(deferred, t));
        return Loaded;
      }
      var ok, parentKeys := BuildParentKeys(job, t);
      if !ok {
        return NoSourceTable;
      }

      var rows: seq<Row> := [];
      for k := 0 to |recordset|
        invariant rows == CleanRows(job, t, recordset[..k])
        invariant target == old(target) && sourceRows == old(sourceRows)
      {
        var row, skip := CleanRow(job, t, recordset[k], parentKeys);
        assert recordset[..k + 1][..k] == recordset[..k];
        if !skip {
          rows := rows + [row];
        }
      }
      assert recordset[..|recordset|] == recordset;

      var defer := DeferredCols(deferred, t);
      if defer != {} {
        sourceRows := sourceRows[t := rows];
        rows := Blanked(rows, defer);
      } else {
        assert forall r: Row :: r - defer == r;
        assert rows == Blanked(rows, defer);
      }
      ok := InsertRows(t, rows);
      if !ok {
        return Refused;
      }
      return Loaded;
    }

    method LoadAll(order: seq<string>, deferred: seq<Fk>) returns (outcome: Outcome)
      requires OneKeyPerColumn(job.fks) && Planned(job, order, deferred)
      modifies this
      ensures outcome == Loaded || outcome == Refused || outcome == NoSourceTable
      ensures ParentsExist(job) ==> outcome != NoSourceTable
      ensures outcome != NoSourceTable ==> (outcome == Loaded <==> Sound(job, FirstPass(job, deferred)))
      ensures outcome == Loaded ==> target == FirstPass(job, deferred)
      ensures outcome == Loaded ==> SavedFor(job, sourceRows, deferred)
    {
      Truncate(order);
      PartEnds(FirstPass(job, deferred), order, job.tables);
      PassComplete(job, order, deferred);
      for i := 0 to |order|
        invariant target == PartOf(FirstPass(job, deferred), order, i)
        invariant SoundUpTo(job, deferred, order, i)
        invariant Saved(job, sourceRows, order, deferred, i)
      {
        LoadStep(job, order, deferred, i);
        SavedStep(job, sourceRows, order, deferred, i);
        outcome := LoadTable(order[i], deferred);
        if outcome != Loaded {
          return;
        }
      }
      SavedAll(job, sourceRows, order, deferred);
      outcome := Loaded;
    }

    method FillRow(d: Fk, r: Row)
      requires d.parent in target && d.child in target && d.child in job.pk
      modifies this`target
      ensures target == GuardedUpdate(job, d, r, old(target))
    {
      if d.col in r && r[d.col] in Keys(target[d.parent], d.pcol) {
        target := target[d.child := UpdateByKey(job.pk[d.child], r, d.col, r[d.col], target[d.child])];
      }
    }

    /** The turn of one saved row takes the database one row further. */
    method FillRowOf(ghost deferred: seq<Fk>, ghost m: nat, ghost n: nat, d: Fk, r: Row)
      requires m < |deferred| && deferred[m] == d && Fillable(job, deferred, m)
      requires n < |Kept(job, d.child)| && r == Kept(job, d.child)[n]
      requires target == HalfDone(job, deferred, m, n)
      modifies this`target
      ensures target == HalfDone(job, deferred, m, n + 1)
    {
      GuardedUpdateStep(job, deferred, m, n);
      FillRow(d, r);
    }

    method FillKey(ghost deferred: seq<Fk>, ghost m: nat, d: Fk)
      requires m < |deferred| && deferred[m] == d && Fillable(job, deferred, m)
      requires target == Filled(job, deferred, m)
      requires RowsOf(sourceRows, d.child) == Kept(job, d.child)
      modifies this`target
      ensures target == Filled(job, deferred, m + 1)
    {
      var rows := RowsOf(sourceRows, d.child);
      ghost var j := job;
      assert d in deferred;
      FillStep(j, deferred, m);
      var n := 0;
      while n < |rows|
        invariant n <= |rows|
        invariant target == HalfDone(j, deferred, m, n)
      {
        FillRowOf(deferred, m, n, d, rows[n]);
        n := n + 1;
      }
    }

    method FillNext(deferred: seq<Fk>, m: nat)
      requires m < |deferred| && AllFillable(job, deferred) && SavedFor(job, sourceRows, deferred)
      requires target == Filled(job, deferred, m)
      modifies this`target
      ensures target == Filled(job, deferred, m + 1)
    {
      assert deferred[m] in deferred && Fillable(job, deferred, m);
      FillKey(deferred, m, deferred[m]);
    }

    method FillAll(deferred: seq<Fk>)
      requires AllFillable(job, deferred) && SavedFor(job, sourceRows, deferred)
      requires target == Filled(job, deferred, 0)
      modifies this`target
      ensures target == Filled(job, deferred, |deferred|)
    {
      ghost var j := job;
      var m := 0;
      while m < |deferred|
        invariant m <= |deferred|
        invariant target == Filled(j, deferred, m)
      {
        FillNext(deferred, m);
        m := m + 1;
      }
    }

    method Run(order: seq<string>, deferred: seq<Fk>) returns (outcome: Outcome)
      requires OneKeyPerColumn(job.fks) && ReferencesNotNull(job) && KeysNotNull(job) && Planned(job, order, deferred)
      requires forall d | d in deferred :: d.child in job.pk
      modifies this
      ensures outcome == Loaded || outcome == Refused || outcome == NoSourceTable
      ensures ParentsExist(job) ==> outcome != NoSourceTable
      ensures outcome != NoSourceTable ==> (outcome == Loaded <==> Sound(job, FirstPass(job, deferred)))
      ensures outcome == Loaded ==> target == Filled(job, deferred, |deferred|) && Sound(job, target)
    {
      outcome := LoadAll(order, deferred);
      if outcome != Loaded {
        return;
      }
      FirstPassIsFillable(job, order, deferred);
      FillAll(deferred);
      FilledIsSound(job, order, deferred);
    }
  }

  /* ---------- the planner feeds the loader ---------- */

  lemma {:induction false} EdgesOneKeyPerColumn(tables: seq<string>, fks: seq<Fk>)
    requires OneKeyPerColumn(fks)
    ensures OneKeyPerColumn(Edges(tables, fks))
  {
    if fks != [] {
      var rest := fks[1..];
      assert forall i | 0 <= i < |rest| :: rest[i] == fks[i + 1];
      EdgesOneKeyPerColumn(tables, rest);
      EdgesAreLive(tables, rest);
      forall j | 0 <= j < |Edges(tables, rest)|
        ensures Edges(tables, rest)[j].child != fks[0].child || Edges(tables, rest)[j].col != fks[0].col
      {
        assert Edges(tables, rest)[j] in rest;
      }
    }
  }

  function DeferredKeys(edges: seq<Fk>, deferred: seq<nat>): (r: seq<Fk>)
    requires forall n | 0 <= n < |deferred| :: deferred[n] < |edges|
    ensures |r| == |deferred| && forall n | 0 <= n < |r| :: r[n] == edges[deferred[n]]
  {
    seq(|deferred|, n requires 0 <= n < |deferred| => edges[deferred[n]])
  }

  /** What the planner returns is what the loader needs. */
  lemma PlanIsPlanned(job: Job, order: seq<string>, deferred: seq<nat>)
    requires Distinct(job.tables) && OneKeyPerColumn(job.fks)
    requires multiset(order) == multiset(job.tables)
    requires ParentsFirst(ActiveGraph(Edges(job.tables, job.fks), deferred), order)
    requires DeferredInTurn(Edges(job.tables, job.fks), job.nullable, deferred)
    ensures forall n | 0 <= n < |deferred| :: deferred[n] < |Edges(job.tables, job.fks)|
    ensures Planned(job, order, DeferredKeys(Edges(job.tables, job.fks), deferred))
  {
    var edges := Edges(job.tables, job.fks);
    EdgesAreLive(job.tables, job.fks);
    EdgesOneKeyPerColumn(job.tables, job.fks);
    PermutationDistinct(job.tables, order);
    forall n | 0 <= n < |deferred|
      ensures deferred[n] < |edges| && deferred[n] !in deferred[..n]
      ensures job.nullable(edges[deferred[n]].child, edges[deferred[n]].col)
    {
      assert Breakable(edges, job.nullable, deferred[..n], deferred[n]);
    }
    var keys := DeferredKeys(edges, deferred);
    forall i, j | 0 <= i < j < |keys| ensures keys[i].child != keys[j].child || keys[i].col != keys[j].col {
      assert deferred[i] in deferred[..j];
    }
    forall d | d in keys ensures d in job.fks && IsEdge(job.tables, d) && job.nullable(d.child, d.col) {
      var n :| 0 <= n < |keys| && keys[n] == d;
      assert edges[deferred[n]] in edges;
    }
    forall f, i | f in job.fks && IsEdge(job.tables, f) && f !in keys && 0 <= i < |order| && order[i] == f.child
      ensures f.parent in order[..i]
    {
      assert f in edges;
      var k :| 0 <= k < |edges| && edges[k] == f;
      forall n | 0 <= n < |deferred| ensures deferred[n] != k {
        assert keys[n] in keys;
      }
      assert (order[i], f.parent) in ActiveGraph(edges, deferred);
    }
  }

  /** The facts about the target schema that the run relies on. */
  ghost predicate WellKeyed(job: Job) {
    && Distinct(job.tables)
    && OneKeyPerColumn(job.fks)
    && ReferencesNotNull(job)
    && KeysNotNull(job)
    && (forall f | f in job.fks && IsEdge(job.tables, f) && job.nullable(f.child, f.col) :: f.child in job.pk)
  }

  /** `deferred` is what the planner's rule defers; by DeferralsDetermined, nothing else can be. */
  ghost predicate DeferredByRule(job: Job, deferred: seq<Fk>) {
    exists ks: seq<nat> :: DeferralOf(job, ks, deferred)
  }

  ghost predicate DeferralOf(job: Job, ks: seq<nat>, deferred: seq<Fk>) {
    var edges := Edges(job.tables, job.fks);
    && DeferredInTurn(edges, job.nullable, ks) && Acyclic(ActiveGraph(edges, ks))
    && |deferred| == |ks| && forall n | 0 <= n < |ks| :: ks[n] < |edges| && deferred[n] == edges[ks[n]]
  }

  /** One job, one list of deferred keys. */
  lemma OneDeferral(job: Job, a: seq<Fk>, b: seq<Fk>)
    requires DeferredByRule(job, a) && DeferredByRule(job, b)
    ensures a == b
  {
    var ks :| DeferralOf(job, ks, a);
    var ls :| DeferralOf(job, ls, b);
    DeferralsDetermined(Edges(job.tables, job.fks), job.nullable, ks, ls);
  }

  lemma PlanIsByRule(job: Job, order: seq<string>, ks: seq<nat>)
    requires multiset(order) == multiset(job.tables)
    requires ParentsFirst(ActiveGraph(Edges(job.tables, job.fks), ks), order)
    requires DeferredInTurn(Edges(job.tables, job.fks), job.nullable, ks)
    requires forall n | 0 <= n < |ks| :: ks[n] < |Edges(job.tables, job.fks)|
    ensures DeferredByRule(job, DeferredKeys(Edges(job.tables, job.fks), ks))
  {
    var edges := Edges(job.tables, job.fks);
    EdgesAreLive(job.tables, job.fks);
    ActiveArcsAreLive(job.tables, edges, ks);
    SameMembers(order, job.tables);
    OrderedIsAcyclic(ActiveGraph(edges, ks), order);
    assert DeferralOf(job, ks, DeferredKeys(edges, ks));
  }

  lemma FilledPasswordsAreHashed(job: Job, deferred: seq<Fk>)
    ensures forall r | r in RowsOf(Filled(job, deferred, |deferred|), "tblSecUser") && "Password" in r ::
              HashedFrom(job, r["Password"])
  {
    if "tblSecUser" in job.tables {
      forall r | r in FilledRows(job, deferred, |deferred|, "tblSecUser") && "Password" in r
        ensures HashedFrom(job, r["Password"])
      {
        LoadedPasswordsAreHashed(job, deferred, r);
      }
    }
  }

  method Migrate(job: Job) returns (outcome: Outcome, db: Db, ghost order: seq<string>, ghost deferred: seq<Fk>)
    requires WellKeyed(job)
    // Planning fails exactly on a cycle of NOT NULL keys, before any row is loaded.
    ensures outcome.Unplannable? <==> !Acyclic(NotNullGraph(Edges(job.tables, job.fks), job.nullable))
    ensures outcome.Unplannable? ==>
              db == map[] && forall t :: t in outcome.stuck <==>
                t in job.tables && LeadsToCycle(NotNullGraph(Edges(job.tables, job.fks), job.nullable), t)
    ensures !outcome.Unplannable? ==> Planned(job, order, deferred) && DeferredByRule(job, deferred)
    ensures ParentsExist(job) ==> outcome != NoSourceTable
    // A plannable load goes through exactly when no undeferred key references a skipped parent
    // and no primary key repeats.
    ensures ParentsExist(job) && !outcome.Unplannable? ==> (outcome == Loaded <==> Sound(job, FirstPass(job, deferred)))
    ensures ParentsExist(job) && !outcome.Unplannable? && KeysUntouched(job) ==>
              (outcome == Loaded <==> NoActiveLoss(job, deferred) && AllKeysHold(job, Direct(job)))
    // It then holds every cleaned row, less the deferred references that do not resolve.
    ensures outcome == Loaded ==>
              db == Filled(job, deferred, |deferred|) && Sound(job, db) && db.Keys == (set t | t in job.tables)
    // No legacy password is loaded as it stood.
    ensures outcome == Loaded ==>
              forall r | r in RowsOf(db, "tblSecUser") && "Password" in r :: HashedFrom(job, r["Password"])
    // The database is that of the direct insert exactly when the direct insert breaks no constraint.
    ensures ParentsExist(job) && !outcome.Unplannable? ==>
              (outcome == Loaded && db == Direct(job) <==> Sound(job, Direct(job)))
  {
    order, deferred := [], [];
    var plan := LoadOrder.LoadOrder(job.tables, job.fks, job.nullable);
    if plan.Unbreakable? {
      return Unplannable(plan.stuck), map[], [], [];
    }
    PlanIsPlanned(job, plan.order, plan.deferred);
    PlanIsByRule(job, plan.order, plan.deferred);
    var keys := DeferredKeys(Edges(job.tables, job.fks), plan.deferred);
    order, deferred := plan.order, keys;
    var migration := new Migration(job);
    outcome := migration.Run(plan.order, keys);
    db := migration.target;
    TwoPhaseEqualsDirect(job, order, deferred);
    BlankingKeepsAllKeys(job, deferred);
    FilledPasswordsAreHashed(job, deferred);
    if KeysUntouched(job) {
      FirstPassIffNoActiveLoss(job, order, deferred);
    }
  }
}
