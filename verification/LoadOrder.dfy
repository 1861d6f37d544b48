/**
 * The load planner of the legacy-data migration: a layered topological sort of the target
 * tables that breaks cycles by deferring nullable foreign keys.
 *
 * A foreign key is an object in the source, and two equal lines of the key file are two
 * objects, so a deferred key is named here by its position in the list of edges.
 */
module LoadOrder {

  datatype Fk = Fk(child: string, col: string, parent: string, pcol: string)

  datatype Plan =
    | Ordered(order: seq<string>, deferred: seq<nat>)
    | Unbreakable(stuck: seq<string>)

  /* ---------- graphs, walks and cycles ---------- */

  /** Arcs run from a child table to the parent it references. */
  type Graph = set<(string, string)>

  ghost predicate Walk(g: Graph, p: seq<string>) {
    |p| > 0 && forall i :: 0 <= i < |p| - 1 ==> (p[i], p[i + 1]) in g
  }

  /** No walk of one arc or more returns to where it started. */
  ghost predicate Acyclic(g: Graph) {
    forall p | Walk(g, p) && |p| > 1 :: p[0] != p[|p| - 1]
  }

  /** A walk from `t` that ends on a table it has already visited. */
  ghost predicate Lasso(g: Graph, t: string, p: seq<string>) {
    Walk(g, p) && p[0] == t && p[|p| - 1] in p[..|p| - 1]
  }

  ghost predicate LeadsToCycle(g: Graph, t: string) {
    exists p :: Lasso(g, t, p)
  }

  /** Every arc out of an ordered table ends on a table that stands strictly before it. */
  ghost predicate ParentsFirst(g: Graph, order: seq<string>) {
    forall i, u | 0 <= i < |order| && (order[i], u) in g :: u in order[..i] && u !in order[i..]
  }

  /** Walks never leave, and always descend in, a parents-first order. */
  lemma {:induction false} WalkDescends(g: Graph, order: seq<string>, p: seq<string>, i: nat)
    requires ParentsFirst(g, order) && Walk(g, p)
    requires i < |order| && order[i] == p[0]
    ensures forall k | 0 < k < |p| :: p[k] in order[..i] && p[k] !in order[i..]
  {
    if |p| > 1 {
      assert (p[0], p[1]) in g;
      var j :| 0 <= j < i && order[j] == p[1];
      assert Walk(g, p[1..]) by {
        forall k | 0 <= k < |p[1..]| - 1 ensures (p[1..][k], p[1..][k + 1]) in g {
          assert (p[k + 1], p[k + 2]) in g;
        }
      }
      WalkDescends(g, order, p[1..], j);
      forall k | 0 < k < |p| ensures p[k] in order[..i] && p[k] !in order[i..] {
        if k > 1 {
          assert p[k] == p[1..][k - 1];
          assert order[..j] <= order[..i];
          assert order[i..] == order[j..][i - j..];
        }
      }
    }
  }

  /** A walk from an ordered table does not end where it has been. */
  lemma {:induction false} OrderedWalkIsOpen(g: Graph, order: seq<string>, p: seq<string>, a: nat)
    requires ParentsFirst(g, order) && Walk(g, p) && p[0] in order
    requires a < |p| - 1
    ensures p[a] != p[|p| - 1]
  {
    var i :| 0 <= i < |order| && order[i] == p[0];
    WalkDescends(g, order, p, i);
    assert p[a] in order by { if a > 0 { assert p[a] in order[..i]; } }
    var j :| 0 <= j < |order| && order[j] == p[a];
    assert Walk(g, p[a..]) by {
      forall k | 0 <= k < |p[a..]| - 1 ensures (p[a..][k], p[a..][k + 1]) in g {
        assert (p[a + k], p[a + k + 1]) in g;
      }
    }
    WalkDescends(g, order, p[a..], j);
    assert p[a..][|p| - 1 - a] !in order[j..] && order[j..][0] == p[a];
  }

  lemma OrderedLeadsToNoCycle(g: Graph, order: seq<string>, t: string)
    requires ParentsFirst(g, order) && t in order
    ensures !LeadsToCycle(g, t)
  {
    forall p | Walk(g, p) && p[0] == t ensures !Lasso(g, t, p) {
      forall a | 0 <= a < |p| - 1 ensures p[a] != p[|p| - 1] {
        OrderedWalkIsOpen(g, order, p, a);
      }
    }
  }

  /** A graph whose child tables can all be put in a parents-first order has no cycle. */
  lemma OrderedIsAcyclic(g: Graph, order: seq<string>)
    requires ParentsFirst(g, order)
    requires forall a | a in g :: a.0 in order
    ensures Acyclic(g)
  {
    forall p | Walk(g, p) && |p| > 1 ensures p[0] != p[|p| - 1] {
      assert (p[0], p[1]) in g;
      OrderedWalkIsOpen(g, order, p, 0);
    }
  }

  /** Some parent of `t` is not in `done`. */
  ghost predicate Held(g: Graph, done: set<string>, t: string) {
    exists u :: (t, u) in g && u !in done
  }

  ghost predicate HasArcInto(g: Graph, s: set<string>, t: string) {
    exists u :: u in s && (t, u) in g
  }

  /**
   * Where every member of a finite set has an arc to a member of the set, a walk can always
   * be prolonged, so every member leads to a cycle.
   */
  lemma {:induction false} NoSinkLeadsToCycle(g: Graph, s: set<string>, p: seq<string>)
    requires forall t | t in s :: HasArcInto(g, s, t)
    requires Walk(g, p) && (forall t | t in p :: t in s)
    ensures LeadsToCycle(g, p[0])
    decreases s - (set t | t in p)
  {
    var last := p[|p| - 1];
    assert last in p;
    var u :| u in s && (last, u) in g;
    var q := p + [u];
    assert Walk(g, q) by {
      forall i | 0 <= i < |q| - 1 ensures (q[i], q[i + 1]) in g {
        if i < |p| - 1 { assert (p[i], p[i + 1]) in g; }
      }
    }
    if u in p {
      assert q[..|q| - 1] == p;
      assert Lasso(g, p[0], q);
    } else {
      assert u in s - (set t | t in p) && u !in s - (set t | t in q);
      NoSinkLeadsToCycle(g, s, q);
    }
  }

  /** The end of a lasso is a closed walk. */
  lemma LassoRefutesAcyclic(g: Graph, t: string)
    requires LeadsToCycle(g, t)
    ensures !Acyclic(g)
  {
    var p :| Lasso(g, t, p);
    var a :| 0 <= a < |p| - 1 && p[a] == p[|p| - 1];
    var q := p[a..];
    assert Walk(g, q) by {
      forall k | 0 <= k < |q| - 1 ensures (q[k], q[k + 1]) in g {
        assert (p[a + k], p[a + k + 1]) in g;
      }
    }
    assert q[0] == q[|q| - 1];
  }

  /* ---------- the foreign keys as a graph ---------- */

  /** Self-references and keys with a table that is not live take no part in the ordering. */
  predicate IsEdge(tables: seq<string>, f: Fk) {
    f.child != f.parent && f.child in tables && f.parent in tables
  }

  function Edges(tables: seq<string>, fks: seq<Fk>): seq<Fk> {
    if fks == [] then []
    else (if IsEdge(tables, fks[0]) then [fks[0]] else []) + Edges(tables, fks[1..])
  }

  lemma {:induction false} EdgesAreLive(tables: seq<string>, fks: seq<Fk>)
    ensures forall f :: f in Edges(tables, fks) <==> f in fks && IsEdge(tables, f)
  {
    if fks != [] {
      EdgesAreLive(tables, fks[1..]);
      assert fks == [fks[0]] + fks[1..];
    }
  }

  function Arc(f: Fk): (string, string) { (f.child, f.parent) }

  function ActiveGraph(edges: seq<Fk>, deferred: seq<nat>): Graph {
    set k | 0 <= k < |edges| && k !in deferred :: Arc(edges[k])
  }

  function NotNullGraph(edges: seq<Fk>, nullable: (string, string) -> bool): Graph {
    set k | 0 <= k < |edges| && !nullable(edges[k].child, edges[k].col) :: Arc(edges[k])
  }

  /** The graph the plan is decided on, told from the key file: one arc for each NOT NULL key that counts. */
  lemma NotNullArcs(tables: seq<string>, fks: seq<Fk>, nullable: (string, string) -> bool, a: string, b: string)
    ensures (a, b) in NotNullGraph(Edges(tables, fks), nullable) <==>
            a != b && a in tables && b in tables
            && exists f | f in fks :: f.child == a && f.parent == b && !nullable(a, f.col)
  {
    var edges := Edges(tables, fks);
    EdgesAreLive(tables, fks);
    if f :| f in fks && f.child == a && f.parent == b && !nullable(a, f.col) && a != b && a in tables && b in tables {
      assert f in edges;
      var k :| 0 <= k < |edges| && edges[k] == f;
    }
    if (a, b) in NotNullGraph(edges, nullable) {
      var k :| 0 <= k < |edges| && !nullable(edges[k].child, edges[k].col) && Arc(edges[k]) == (a, b);
      assert edges[k] in edges;
    }
  }

  /** An undeferred nullable key whose two ends both lead to a cycle of undeferred keys. */
  ghost predicate Breakable(edges: seq<Fk>, nullable: (string, string) -> bool, deferred: seq<nat>, k: nat) {
    && k < |edges| && k !in deferred
    && nullable(edges[k].child, edges[k].col)
    && LeadsToCycle(ActiveGraph(edges, deferred), edges[k].child)
    && LeadsToCycle(ActiveGraph(edges, deferred), edges[k].parent)
  }

  /** Each key was deferred because it was the first breakable one at its turn. */
  ghost predicate DeferredInTurn(edges: seq<Fk>, nullable: (string, string) -> bool, deferred: seq<nat>) {
    forall n | 0 <= n < |deferred| ::
      && Breakable(edges, nullable, deferred[..n], deferred[n])
      && forall k | 0 <= k < deferred[n] :: !Breakable(edges, nullable, deferred[..n], k)
  }

  /** The deferred positions are pairwise different, so the edges bound their number. */
  lemma DeferredBounded(edges: seq<Fk>, nullable: (string, string) -> bool, deferred: seq<nat>)
    requires DeferredInTurn(edges, nullable, deferred)
    ensures |deferred| <= |edges|
  {
    forall n | 0 <= n < |deferred| ensures deferred[n] < |edges| && deferred[n] !in deferred[..n] {
      assert Breakable(edges, nullable, deferred[..n], deferred[n]);
    }
    DistinctBelow(deferred, |edges|);
  }

  /** Pigeonhole: at most n different numbers lie below n. */
  lemma {:induction false} DistinctBelow(xs: seq<nat>, n: nat)
    requires forall i | 0 <= i < |xs| :: xs[i] < n && xs[i] !in xs[..i]
    ensures |xs| <= n
  {
    if n == 0 {
      assert |xs| == 0;
    } else if n - 1 in xs {
      var k :| 0 <= k < |xs| && xs[k] == n - 1;
      var ys := xs[..k] + xs[k + 1..];
      forall i | 0 <= i < |ys| ensures ys[i] < n - 1 && ys[i] !in ys[..i] {
        if i < k {
          assert ys[..i] == xs[..i] && ys[i] == xs[i] && xs[k] !in xs[..k];
        } else {
          assert ys[i] == xs[i + 1] && xs[k] in xs[..i + 1];
          assert ys[..i] == xs[..k] + xs[k + 1..i + 1];
        }
      }
      DistinctBelow(ys, n - 1);
    } else {
      DistinctBelow(xs, n - 1);
    }
  }

  /* ---------- one topological sort ---------- */

  /** The entries of `tables` that belong to `s`, in their own order. */
  function Pick(tables: seq<string>, s: set<string>): seq<string> {
    if tables == [] then []
    else (if tables[0] in s then [tables[0]] else []) + Pick(tables[1..], s)
  }

  lemma {:induction false} PickMembers(tables: seq<string>, s: set<string>)
    ensures forall t :: t in Pick(tables, s) <==> t in tables && t in s
    ensures |Pick(tables, s)| <= |tables|
    ensures |Pick(tables, s)| == |tables| <==> forall t | t in tables :: t in s
    ensures |Pick(tables, s)| == |tables| ==> Pick(tables, s) == tables
    ensures s == {} ==> Pick(tables, s) == []
  {
    if tables != [] {
      PickMembers(tables[1..], s);
      assert tables == [tables[0]] + tables[1..];
    }
  }

  lemma {:induction false} PickDisjointUnion(tables: seq<string>, a: set<string>, b: set<string>)
    requires a !! b
    ensures multiset(Pick(tables, a + b)) == multiset(Pick(tables, a)) + multiset(Pick(tables, b))
  {
    if tables != [] {
      PickDisjointUnion(tables[1..], a, b);
    }
  }

  method BuildDeps(tables: seq<string>, edges: seq<Fk>, deferred: seq<nat>) returns (deps: map<string, set<string>>)
    requires forall f | f in edges :: IsEdge(tables, f)
    ensures deps.Keys == set t | t in tables
    ensures forall t, u | t in deps :: u in deps[t] <==> (t, u) in ActiveGraph(edges, deferred)
  {
    deps := map t | t in tables :: {};
    for k := 0 to |edges|
      invariant deps.Keys == set t | t in tables
      invariant forall t, u | t in deps ::
          u in deps[t] <==> exists n :: 0 <= n < k && n !in deferred && Arc(edges[n]) == (t, u)
    {
      if k !in deferred {
        var e := edges[k];
        assert IsEdge(tables, e);
        deps := deps[e.child := deps[e.child] + {e.parent}];
      }
    }
  }

  method Settle(tables: seq<string>, deps: map<string, set<string>>, ghost g: Graph)
    returns (order: seq<string>, done: set<string>)
    requires deps.Keys == set t | t in tables
    requires forall t, u | t in deps :: u in deps[t] <==> (t, u) in g
    ensures forall t :: t in order <==> t in done
    ensures done <= deps.Keys
    ensures multiset(order) == multiset(Pick(tables, done))
    ensures ParentsFirst(g, order)
    ensures forall t | t in tables && t !in done :: Held(g, done, t)
  {
    order, done := [], {};
    PickMembers(tables, {});
    while true
      invariant forall t :: t in order <==> t in done
      invariant done <= deps.Keys
      invariant multiset(order) == multiset(Pick(tables, done))
      invariant ParentsFirst(g, order)
      decreases deps.Keys - done
    {
      var layer := set t | t in tables && t !in done && deps[t] <= done;
      var ready := Pick(tables, layer);
      PickMembers(tables, layer);
      if ready == [] {
        forall t | t in tables && t !in done ensures Held(g, done, t) {
          assert t !in ready && t !in layer;
          var u :| u in deps[t] && u !in done;
        }
        break;
      }
      assert ready[0] in layer;
      PickDisjointUnion(tables, done, layer);
      LayerKeepsParentsFirst(g, order, ready);
      order, done := order + ready, done + layer;
    }
  }

  lemma LayerKeepsParentsFirst(g: Graph, order: seq<string>, ready: seq<string>)
    requires ParentsFirst(g, order)
    requires forall t | t in ready :: t !in order && forall u | (t, u) in g :: u in order
    ensures ParentsFirst(g, order + ready)
  {
    var both := order + ready;
    forall i, u | 0 <= i < |both| && (both[i], u) in g ensures u in both[..i] && u !in both[i..] {
      if i < |order| {
        assert both[..i] == order[..i] && both[i..] == order[i..] + ready;
      } else {
        assert both[i] in ready;
        assert both[..i] == order + ready[..i - |order|];
        assert both[i..] == ready[i - |order|..];
      }
    }
  }

  /* ---------- breaking cycles ---------- */

  /** The first undeferred nullable key between two stuck tables; |edges| when there is none. */
  method FindBreakable(edges: seq<Fk>, nullable: (string, string) -> bool, deferred: seq<nat>, done: set<string>)
    returns (k: nat)
    ensures k <= |edges|
    ensures k < |edges| ==> Candidate(edges, nullable, deferred, done, k)
    ensures forall n | 0 <= n < k :: !Candidate(edges, nullable, deferred, done, n)
  {
    k := 0;
    while k < |edges| && !Candidate(edges, nullable, deferred, done, k)
      invariant k <= |edges|
      invariant forall n | 0 <= n < k :: !Candidate(edges, nullable, deferred, done, n)
    {
      k := k + 1;
    }
  }

  predicate Candidate(edges: seq<Fk>, nullable: (string, string) -> bool, deferred: seq<nat>, done: set<string>, k: nat)
  {
    && k < |edges| && k !in deferred
    && edges[k].child !in done && edges[k].parent !in done
    && nullable(edges[k].child, edges[k].col)
  }

  /** What the inner sort leaves over is exactly what leads to a cycle. */
  lemma StuckLeadsToCycle(g: Graph, tables: seq<string>, order: seq<string>, done: set<string>)
    requires forall a | a in g :: a.0 in tables && a.1 in tables
    requires forall t :: t in order <==> t in done
    requires ParentsFirst(g, order)
    requires forall t | t in tables && t !in done :: Held(g, done, t)
    ensures forall t | t in tables :: LeadsToCycle(g, t) <==> t !in done
  {
    var stuck := set t | t in tables && t !in done;
    forall t | t in tables ensures LeadsToCycle(g, t) <==> t !in done {
      if t in done {
        OrderedLeadsToNoCycle(g, order, t);
      } else {
        forall v | v in stuck ensures HasArcInto(g, stuck, v) {
          var u :| (v, u) in g && u !in done;
          assert u in stuck;
        }
        NoSinkLeadsToCycle(g, stuck, [t]);
      }
    }
  }

  /** With nothing breakable, the stuck tables are held by NOT NULL keys alone. */
  lemma UnbreakableIsNotNullCycle(edges: seq<Fk>, nullable: (string, string) -> bool, deferred: seq<nat>,
                                  tables: seq<string>, done: set<string>, t: string)
    requires forall f | f in edges :: IsEdge(tables, f)
    requires forall v | v in tables && v !in done :: Held(ActiveGraph(edges, deferred), done, v)
    requires forall k: nat :: !Candidate(edges, nullable, deferred, done, k)
    requires t in tables && t !in done
    ensures LeadsToCycle(NotNullGraph(edges, nullable), t)
  {
    var stuck := set v | v in tables && v !in done;
    forall v | v in stuck ensures HasArcInto(NotNullGraph(edges, nullable), stuck, v) {
      var u :| (v, u) in ActiveGraph(edges, deferred) && u !in done;
      var k :| 0 <= k < |edges| && k !in deferred && Arc(edges[k]) == (v, u);
      assert IsEdge(tables, edges[k]) && !Candidate(edges, nullable, deferred, done, k);
      assert u in stuck && (v, u) in NotNullGraph(edges, nullable);
    }
    NoSinkLeadsToCycle(NotNullGraph(edges, nullable), stuck, [t]);
  }

  method LoadOrder(tables: seq<string>, fks: seq<Fk>, nullable: (string, string) -> bool) returns (plan: Plan)
    // It succeeds exactly when the NOT NULL keys between distinct live tables form no cycle.
    ensures plan.Ordered? <==> Acyclic(NotNullGraph(Edges(tables, fks), nullable))
    ensures plan.Ordered? ==>
              && multiset(plan.order) == multiset(tables)
              && ParentsFirst(ActiveGraph(Edges(tables, fks), plan.deferred), plan.order)
              && DeferredInTurn(Edges(tables, fks), nullable, plan.deferred)
    // A failure names exactly the tables that lead to a cycle of NOT NULL keys.
    ensures plan.Unbreakable? ==>
              && plan.stuck != []
              && forall t :: t in plan.stuck <==>
                             t in tables && LeadsToCycle(NotNullGraph(Edges(tables, fks), nullable), t)
  {
    var edges := Edges(tables, fks);
    EdgesAreLive(tables, fks);
    var deferred: seq<nat> := [];
    while true
      invariant DeferredInTurn(edges, nullable, deferred)
      invariant |deferred| <= |edges|
      decreases |edges| - |deferred|
    {
      ghost var g := ActiveGraph(edges, deferred);
      var deps := BuildDeps(tables, edges, deferred);
      var order, done := Settle(tables, deps, g);
      SettledCount(tables, order, done);
      if |order| == |tables| {
        SettledAllIsAcyclic(tables, edges, nullable, deferred, order);
        return Ordered(order, deferred);
      }

      ActiveArcsAreLive(tables, edges, deferred);
      StuckLeadsToCycle(g, tables, order, done);
      var k := FindBreakable(edges, nullable, deferred, done);
      if k == |edges| {
        var stuck := Pick(tables, (set t | t in tables) - done);
        UnbreakableStuck(edges, nullable, deferred, tables, done, stuck);
        return Unbreakable(stuck);
      }
      DeferNext(edges, nullable, deferred, tables, done, k);
      deferred := deferred + [k];
      DeferredBounded(edges, nullable, deferred);
    }
  }

  lemma SettledCount(tables: seq<string>, order: seq<string>, done: set<string>)
    requires multiset(order) == multiset(Pick(tables, done))
    ensures |order| == |tables| <==> forall t | t in tables :: t in done
    ensures |order| == |tables| ==> multiset(order) == multiset(tables)
  {
    PickMembers(tables, done);
    assert |order| == |multiset(order)| == |Pick(tables, done)|;
  }

  lemma ActiveArcsAreLive(tables: seq<string>, edges: seq<Fk>, deferred: seq<nat>)
    requires forall f | f in edges :: IsEdge(tables, f)
    ensures forall a | a in ActiveGraph(edges, deferred) :: a.0 in tables && a.1 in tables
  {
    forall a | a in ActiveGraph(edges, deferred) ensures a.0 in tables && a.1 in tables {
      var k :| 0 <= k < |edges| && k !in deferred && Arc(edges[k]) == a;
      assert IsEdge(tables, edges[k]);
    }
  }

  lemma SettledAllIsAcyclic(tables: seq<string>, edges: seq<Fk>, nullable: (string, string) -> bool,
                            deferred: seq<nat>, order: seq<string>)
    requires DeferredInTurn(edges, nullable, deferred)
    requires forall f | f in edges :: IsEdge(tables, f)
    requires multiset(order) == multiset(tables)
    requires ParentsFirst(ActiveGraph(edges, deferred), order)
    ensures Acyclic(NotNullGraph(edges, nullable))
  {
    NotNullKeysStayActive(edges, nullable, deferred);
    ActiveArcsAreLive(tables, edges, deferred);
    assert forall t | t in tables :: t in multiset(tables) && t in multiset(order);
    OrderedIsAcyclic(NotNullGraph(edges, nullable), order);
  }

  lemma UnbreakableStuck(edges: seq<Fk>, nullable: (string, string) -> bool, deferred: seq<nat>,
                         tables: seq<string>, done: set<string>, stuck: seq<string>)
    requires forall f | f in edges :: IsEdge(tables, f)
    requires forall v | v in tables && v !in done :: Held(ActiveGraph(edges, deferred), done, v)
    requires forall k: nat :: !Candidate(edges, nullable, deferred, done, k)
    requires exists t :: t in tables && t !in done
    requires forall t | t in tables :: LeadsToCycle(ActiveGraph(edges, deferred), t) <==> t !in done
    requires DeferredInTurn(edges, nullable, deferred)
    requires stuck == Pick(tables, (set t | t in tables) - done)
    ensures stuck != []
    ensures forall t :: t in stuck <==> t in tables && LeadsToCycle(NotNullGraph(edges, nullable), t)
    ensures !Acyclic(NotNullGraph(edges, nullable))
  {
    PickMembers(tables, (set t | t in tables) - done);
    var t :| t in tables && t !in done;
    assert t in stuck;
    forall v | v in stuck ensures LeadsToCycle(NotNullGraph(edges, nullable), v) {
      UnbreakableIsNotNullCycle(edges, nullable, deferred, tables, done, v);
    }
    LassoRefutesAcyclic(NotNullGraph(edges, nullable), t);
    NotNullKeysStayActive(edges, nullable, deferred);
    forall v | v in tables && LeadsToCycle(NotNullGraph(edges, nullable), v) ensures v in stuck {
      MoreArcsLeadToCycle(NotNullGraph(edges, nullable), ActiveGraph(edges, deferred), v);
    }
  }

  lemma MoreArcsLeadToCycle(g: Graph, h: Graph, t: string)
    requires g <= h && LeadsToCycle(g, t)
    ensures LeadsToCycle(h, t)
  {
    var p :| Lasso(g, t, p);
    assert Lasso(h, t, p);
  }

  lemma NotNullKeysStayActive(edges: seq<Fk>, nullable: (string, string) -> bool, deferred: seq<nat>)
    requires DeferredInTurn(edges, nullable, deferred)
    ensures NotNullGraph(edges, nullable) <= ActiveGraph(edges, deferred)
  {
    forall a | a in NotNullGraph(edges, nullable) ensures a in ActiveGraph(edges, deferred) {
      var k :| 0 <= k < |edges| && !nullable(edges[k].child, edges[k].col) && Arc(edges[k]) == a;
      forall n | 0 <= n < |deferred| ensures deferred[n] != k {
        assert Breakable(edges, nullable, deferred[..n], deferred[n]);
      }
    }
  }

  lemma DeferNext(edges: seq<Fk>, nullable: (string, string) -> bool, deferred: seq<nat>,
                  tables: seq<string>, done: set<string>, k: nat)
    requires DeferredInTurn(edges, nullable, deferred)
    requires forall f | f in edges :: IsEdge(tables, f)
    requires forall t | t in tables :: LeadsToCycle(ActiveGraph(edges, deferred), t) <==> t !in done
    requires Candidate(edges, nullable, deferred, done, k)
    requires forall n | 0 <= n < k :: !Candidate(edges, nullable, deferred, done, n)
    ensures DeferredInTurn(edges, nullable, deferred + [k])
  {
    var next := deferred + [k];
    forall n | 0 <= n < |next|
      ensures Breakable(edges, nullable, next[..n], next[n])
      ensures forall i | 0 <= i < next[n] :: !Breakable(edges, nullable, next[..n], i)
    {
      if n < |deferred| {
        assert next[..n] == deferred[..n];
      } else {
        assert next[..n] == deferred && IsEdge(tables, edges[k]);
        forall i | 0 <= i < k ensures !Breakable(edges, nullable, deferred, i) {
          assert IsEdge(tables, edges[i]) && !Candidate(edges, nullable, deferred, done, i);
        }
      }
    }
  }

  /** The rule leaves no choice: there is one list of deferrals that it can end with. */
  lemma DeferralsDetermined(edges: seq<Fk>, nullable: (string, string) -> bool, a: seq<nat>, b: seq<nat>)
    requires DeferredInTurn(edges, nullable, a) && Acyclic(ActiveGraph(edges, a))
    requires DeferredInTurn(edges, nullable, b) && Acyclic(ActiveGraph(edges, b))
    ensures a == b
  {
    var m := if |a| < |b| then |a| else |b|;
    SamePrefix(edges, nullable, a, b, m);
    if |a| <= |b| {
      assert a[..m] == a;
      NoProperPrefix(edges, nullable, a, b);
      assert b[..m] == b;
    }
    if |b| <= |a| {
      assert b[..m] == b;
      NoProperPrefix(edges, nullable, b, a);
      assert a[..m] == a;
    }
  }

  /** A list that leaves no cycle cannot be continued. */
  lemma NoProperPrefix(edges: seq<Fk>, nullable: (string, string) -> bool, a: seq<nat>, b: seq<nat>)
    requires Acyclic(ActiveGraph(edges, a)) && DeferredInTurn(edges, nullable, b)
    requires |a| <= |b| && b[..|a|] == a
    ensures |a| == |b|
  {
    if |a| < |b| {
      StillBreakable(edges, nullable, b, |a|);
    }
  }

  lemma StillBreakable(edges: seq<Fk>, nullable: (string, string) -> bool, deferred: seq<nat>, n: nat)
    requires DeferredInTurn(edges, nullable, deferred) && n < |deferred|
    ensures !Acyclic(ActiveGraph(edges, deferred[..n]))
  {
    assert Breakable(edges, nullable, deferred[..n], deferred[n]);
    LassoRefutesAcyclic(ActiveGraph(edges, deferred[..n]), edges[deferred[n]].child);
  }

  lemma DeferredFirst(edges: seq<Fk>, nullable: (string, string) -> bool, deferred: seq<nat>, n: nat)
    requires DeferredInTurn(edges, nullable, deferred) && n < |deferred|
    ensures Breakable(edges, nullable, deferred[..n], deferred[n])
    ensures forall k | 0 <= k < deferred[n] :: !Breakable(edges, nullable, deferred[..n], k)
  {
  }

  lemma {:induction false} SamePrefix(edges: seq<Fk>, nullable: (string, string) -> bool,
                                      a: seq<nat>, b: seq<nat>, m: nat)
    requires DeferredInTurn(edges, nullable, a) && DeferredInTurn(edges, nullable, b)
    requires m <= |a| && m <= |b|
    ensures a[..m] == b[..m]
  {
    if m > 0 {
      var n := m - 1;
      SamePrefix(edges, nullable, a, b, n);
      DeferredFirst(edges, nullable, a, n);
      DeferredFirst(edges, nullable, b, n);
      assert a[n] == b[n];
      assert a[..m] == a[..n] + [a[n]] && b[..m] == b[..n] + [b[n]];
    }
  }
}
