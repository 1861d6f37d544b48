/**
 * Two legacy databases on which the migration does not do what it says of itself: a row that
 * is skipped still counts as a parent when its children are checked, so they are neither
 * nulled nor skipped, and the load is refused or loses their references.
 */
module LostParents {
  import opened Sequences
  import opened LoadOrder
  import opened Loader
  import opened Migration

  /* ---------- a skipped parent still vouches for its children ---------- */

  const PG := Fk("P", "g", "G", "id")
  const CP := Fk("C", "p", "P", "id")

  const ORPHAN: Row := map["id" := Num(1), "g" := Num(9)]
  const CHILD: Row := map["id" := Num(1), "p" := Num(1)]

  /** P's only row has no parent in G; C's only row references it. Every key is NOT NULL. */
  const CASCADE := Job(["G", "P", "C"], [PG, CP], (t, c) => false, map[], map[],
                       map["G" := [], "P" := [ORPHAN], "C" := [CHILD]], s => s)

  lemma CascadeSkipsParent()
    ensures Kept(CASCADE, "P") == []
  {
    CleanOneRow(CASCADE, "P", ORPHAN);
    assert PG in CASCADE.fks && Checked(CASCADE, "P", PG) && Orphan(CASCADE, ClearSentinels(CASCADE, "P", ORPHAN), PG);
  }

  lemma CascadeKeepsChild()
    ensures Kept(CASCADE, "C") == [CHILD]
  {
    CleanOneRow(CASCADE, "C", CHILD);
    assert ClearSentinels(CASCADE, "C", CHILD) == CHILD;
    assert !Skipped(CASCADE, "C", CHILD) by {
      assert ORPHAN in CASCADE.source["P"] && Num(1) in Keys(CASCADE.source["P"], "id");
    }
    assert OrphanCols(CASCADE, "C", CHILD) == {};
    assert Cleaned(CASCADE, "C", CHILD) == CHILD;
  }

  lemma CascadeIsPlannable()
    ensures Acyclic(NotNullGraph(Edges(CASCADE.tables, CASCADE.fks), CASCADE.nullable))
  {
    var edges := Edges(CASCADE.tables, CASCADE.fks);
    var g := NotNullGraph(edges, CASCADE.nullable);
    EdgesAreLive(CASCADE.tables, CASCADE.fks);
    forall a | a in g ensures a == ("P", "G") || a == ("C", "P") {
      var k :| 0 <= k < |edges| && Arc(edges[k]) == a;
      assert edges[k] in CASCADE.fks;
    }
    var order := CASCADE.tables;
    assert order[..1] == ["G"] && order[1..] == ["P", "C"] && order[..2] == ["G", "P"] && order[2..] == ["C"];
    OrderedIsAcyclic(g, order);
  }

  lemma CascadeIsWellKeyed()
    ensures WellKeyed(CASCADE) && ParentsExist(CASCADE)
  {
    assert forall f | f in CASCADE.fks :: f == PG || f == CP;
  }

  /**
   * Orphans are looked up among the legacy rows, not among the loaded ones. A row skipped for
   * a NOT NULL orphan still vouches for its children, and the load of the child is refused.
   */
  lemma SkippedParentBreaksLoad()
    ensures WellKeyed(CASCADE) && ParentsExist(CASCADE)
    ensures Acyclic(NotNullGraph(Edges(CASCADE.tables, CASCADE.fks), CASCADE.nullable))
    ensures Kept(CASCADE, "P") == [] && Kept(CASCADE, "C") == [CHILD]
    ensures !Consistent(CASCADE, Direct(CASCADE))
    ensures forall order, deferred | Planned(CASCADE, order, deferred) ::
              !Consistent(CASCADE, FirstPass(CASCADE, deferred))
  {
    CascadeIsWellKeyed();
    CascadeSkipsParent();
    CascadeKeepsChild();
    CascadeIsPlannable();
    DanglingRow(CASCADE, Direct(CASCADE), CP, CHILD);
    forall order, deferred | Planned(CASCADE, order, deferred)
      ensures !Consistent(CASCADE, FirstPass(CASCADE, deferred))
    {
      CascadeIsRefused(order, deferred);
    }
  }

  lemma CascadeLosesParent()
    ensures CHILD["p"] in LostKeys(CASCADE, CP)
  {
    CascadeSkipsParent();
    assert ORPHAN in RowsOf(CASCADE.source, "P");
  }

  lemma CascadeIsRefused(order: seq<string>, deferred: seq<Fk>)
    requires Planned(CASCADE, order, deferred)
    ensures !Consistent(CASCADE, FirstPass(CASCADE, deferred))
  {
    CascadeIsWellKeyed();
    CascadeLosesParent();
    CascadeKeepsChild();
    CascadeKeysUntouched();
    FirstPassIffNoActiveLoss(CASCADE, order, deferred);
    assert CP !in deferred && CP in CASCADE.fks && IsEdge(CASCADE.tables, CP);
    assert CHILD in Kept(CASCADE, CP.child) && CP.col in CHILD;
  }

  lemma CascadeKeysUntouched()
    ensures KeysUntouched(CASCADE)
  {
  }

  /** Run on that database, the migration is refused. */
  method MigrateCascade() returns (outcome: Outcome)
    ensures outcome == Refused
  {
    SkippedParentBreaksLoad();
    var db;
    ghost var order, deferred;
    outcome, db, order, deferred := Migrate(CASCADE);
  }

  lemma DanglingRow(job: Job, db: Db, f: Fk, row: Row)
    requires f in job.fks && IsEdge(job.tables, f) && row in RowsOf(db, f.child) && f.col in row
    requires RowsOf(db, f.parent) == []
    ensures !Consistent(job, db)
  {
    assert !RowConsistent(job, db, f.child, row);
  }

  /* ---------- the same loss behind a deferred key ---------- */

  const PC := Fk("P", "c", "C", "id")
  const MEMBER: Row := map["id" := Num(1), "g" := Num(9), "c" := Num(1)]

  /** P and C reference each other, C's key may be NULL, and P's only row has no parent in G. */
  const CYCLE := Job(["G", "P", "C"], [PG, PC, CP], (t, c) => t == "C" && c == "p", map["C" := {"id"}], map[],
                     map["G" := [], "P" := [MEMBER], "C" := [CHILD]], s => s)

  lemma CycleSkipsParent()
    ensures Kept(CYCLE, "P") == []
  {
    CleanOneRow(CYCLE, "P", MEMBER);
    assert PG in CYCLE.fks && Checked(CYCLE, "P", PG) && Orphan(CYCLE, ClearSentinels(CYCLE, "P", MEMBER), PG);
  }

  lemma CycleKeepsChild()
    ensures Kept(CYCLE, "C") == [CHILD] && Kept(CYCLE, "G") == []
  {
    CleanOneRow(CYCLE, "C", CHILD);
    ChildIsCleanInCycle();
  }

  lemma ChildIsCleanInCycle()
    ensures !Skipped(CYCLE, "C", CHILD) && Cleaned(CYCLE, "C", CHILD) == CHILD
  {
    assert ClearSentinels(CYCLE, "C", CHILD) == CHILD;
    assert !Orphan(CYCLE, CHILD, CP) by {
      assert MEMBER in CYCLE.source["P"] && Num(1) in Keys(CYCLE.source["P"], "id");
    }
    CycleFks();
    assert forall f | f in CYCLE.fks && Checked(CYCLE, "C", f) :: f == CP;
    assert OrphanCols(CYCLE, "C", CHILD) == {};
  }

  lemma CycleFks()
    ensures forall f :: f in CYCLE.fks <==> f == PG || f == PC || f == CP
  {
    assert CYCLE.fks[0] == PG && CYCLE.fks[1] == PC && CYCLE.fks[2] == CP;
  }

  lemma CycleIsWellKeyed()
    ensures WellKeyed(CYCLE) && ParentsExist(CYCLE) && KeysUntouched(CYCLE)
  {
    CycleFks();
  }

  lemma CycleIsPlannable()
    ensures Acyclic(NotNullGraph(Edges(CYCLE.tables, CYCLE.fks), CYCLE.nullable))
  {
    var edges := Edges(CYCLE.tables, CYCLE.fks);
    var g := NotNullGraph(edges, CYCLE.nullable);
    forall a | a in g ensures a == ("P", "G") || a == ("P", "C") {
      var k :| 0 <= k < |edges| && !CYCLE.nullable(edges[k].child, edges[k].col) && Arc(edges[k]) == a;
      EdgesAreLive(CYCLE.tables, CYCLE.fks);
      CycleFks();
      assert edges[k] in edges;
    }
    ParentsBeforeP(g);
    OrderedIsAcyclic(g, ["G", "C", "P"]);
  }

  lemma ParentsBeforeP(g: Graph)
    requires forall a | a in g :: a == ("P", "G") || a == ("P", "C")
    ensures ParentsFirst(g, ["G", "C", "P"])
  {
    var order := ["G", "C", "P"];
    assert order[..2] == ["G", "C"] && order[2..] == ["P"];
  }

  /** Of two keys that run both ways between two tables, one is deferred. */
  lemma OneOfTwoIsDeferred(job: Job, order: seq<string>, deferred: seq<Fk>, f: Fk, g: Fk)
    requires Planned(job, order, deferred)
    requires f in job.fks && g in job.fks && IsEdge(job.tables, f) && f.child == g.parent && f.parent == g.child
    ensures f in deferred || g in deferred
  {
    SameMembers(order, job.tables);
    var i :| 0 <= i < |order| && order[i] == f.child;
    var j :| 0 <= j < |order| && order[j] == f.parent;
    if f !in deferred {
      var k :| 0 <= k < |order[..i]| && order[..i][k] == f.parent;
      assert order[k] == order[j] && j < i;
    }
    if g !in deferred {
      assert IsEdge(job.tables, g);
      var k :| 0 <= k < |order[..j]| && order[..j][k] == g.parent;
      assert order[k] == order[i] && i < j;
    }
  }

  /** Whatever the order, the cycle can only have been broken at C's key. */
  lemma CycleIsBrokenAtChild(order: seq<string>, deferred: seq<Fk>)
    requires Planned(CYCLE, order, deferred)
    ensures forall d :: d in deferred <==> d == CP
  {
    CycleFks();
    OneOfTwoIsDeferred(CYCLE, order, deferred, CP, PC);
  }

  lemma CycleHasNoActiveLoss(order: seq<string>, deferred: seq<Fk>)
    requires Planned(CYCLE, order, deferred)
    ensures NoActiveLoss(CYCLE, deferred)
  {
    CycleIsBrokenAtChild(order, deferred);
    CycleFks();
    forall f | f in CYCLE.fks && IsEdge(CYCLE.tables, f) && f !in deferred ensures Kept(CYCLE, f.child) == [] {
      CycleSkipsParent();
      assert f.child == "P";
    }
  }

  lemma CycleKeysHold()
    ensures AllKeysHold(CYCLE, Direct(CYCLE))
  {
    forall t | t in CYCLE.tables ensures KeysHold(CYCLE, t, RowsOf(Direct(CYCLE), t)) {
      if t == "C" {
        CycleKeepsChild();
        ChildHasKey();
      }
    }
  }

  lemma ChildHasKey()
    ensures KeysHold(CYCLE, "C", [CHILD])
  {
    assert CYCLE.pk["C"] == {"id"} && CHILD["id"] == Num(1);
  }

  lemma CycleLeavesReferenceUnfilled(order: seq<string>, deferred: seq<Fk>)
    requires Planned(CYCLE, order, deferred)
    ensures Unfilled(CYCLE, deferred, |deferred|, "C", CHILD) == {"p"}
  {
    CycleSkipsParent();
    CycleIsBrokenAtChild(order, deferred);
    assert CP in deferred && !Resolves(CYCLE, CP, CHILD);
    var k :| 0 <= k < |deferred| && deferred[k] == CP;
    forall i | 0 <= i < |deferred| ensures deferred[i] == CP {
      assert deferred[i] in deferred;
    }
  }

  lemma OneRowFilled(job: Job, deferred: seq<Fk>, t: string, row: Row, cols: set<string>)
    requires Kept(job, t) == [row] && Unfilled(job, deferred, |deferred|, t, row) == cols
    ensures FilledRows(job, deferred, |deferred|, t) == [row - cols]
  {
  }

  lemma ChildWithoutReference()
    ensures CHILD - {"p"} == map["id" := Num(1)]
  {
  }

  lemma CycleLosesReference(order: seq<string>, deferred: seq<Fk>)
    requires Planned(CYCLE, order, deferred)
    ensures RowsOf(Filled(CYCLE, deferred, |deferred|), "C") == [map["id" := Num(1)]]
  {
    CycleKeepsChild();
    CycleLeavesReferenceUnfilled(order, deferred);
    OneRowFilled(CYCLE, deferred, "C", CHILD, {"p"});
    ChildWithoutReference();
    FilledAt(CYCLE, deferred, "C");
  }

  lemma FilledAt(job: Job, deferred: seq<Fk>, t: string)
    requires t in job.tables
    ensures RowsOf(Filled(job, deferred, |deferred|), t) == FilledRows(job, deferred, |deferred|, t)
  {
  }

  /** That migration goes through, and the child's reference is gone, counted neither as nulled nor as skipped. */
  method MigrateCycle() returns (outcome: Outcome, db: Db)
    ensures outcome == Loaded && RowsOf(db, "C") == [map["id" := Num(1)]] && RowsOf(Direct(CYCLE), "C") == [CHILD]
  {
    CycleIsWellKeyed();
    CycleIsPlannable();
    CycleKeepsChild();
    ghost var order, deferred;
    outcome, db, order, deferred := Migrate(CYCLE);
    CycleHasNoActiveLoss(order, deferred);
    CycleKeysHold();
    CycleLosesReference(order, deferred);
  }
}
