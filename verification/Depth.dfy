/** The post-parse depth walker: a depth-first walk with a memo over a graph that may share or loop. */
module Depth {
  /** A decoded value: a scalar, or a reference to a container by identity. */
  datatype Value = Scalar | Ref(id: nat)

  /** Every container's children in walk order: the values of a dict, the items of a list. */
  type Graph = map<nat, seq<Value>>

  predicate Known(g: Graph, v: Value) { v.Scalar? || v.id in g }

  ghost predicate Closed(g: Graph) {
    forall n, v :: n in g && v in g[n] ==> Known(g, v)
  }

  function Elements(s: seq<nat>): set<nat> { set x | x in s }

  ghost predicate Distinct(s: seq<nat>) {
    forall i, j :: 0 <= i < j < |s| ==> s[i] != s[j]
  }

  /** Outcome of a walk: whether it returned (did not raise), and the containers expanded so far, in order. */
  datatype Visit = Visit(ok: bool, order: seq<nat>)

  /** Recursive reading of the walk. */
  function Walk(g: Graph, v: Value, current: nat, cap: int, order: seq<nat>): (r: Visit)
    requires Closed(g) && Known(g, v)
    ensures order <= r.order && (Distinct(order) ==> Distinct(r.order))
    decreases g.Keys - Elements(order), 0
  {
    if v.Scalar? then Visit(true, order)
    else if current > cap then Visit(false, order)
    else if v.id in order then Visit(true, order)
    else
      assert v.id in Elements(order + [v.id]);
      WalkAll(g, g[v.id], current + 1, cap, order + [v.id])
  }

  function WalkAll(g: Graph, vs: seq<Value>, current: nat, cap: int, order: seq<nat>): (r: Visit)
    requires Closed(g) && forall v :: v in vs ==> Known(g, v)
    ensures order <= r.order && (Distinct(order) ==> Distinct(r.order))
    decreases g.Keys - Elements(order), |vs| + 1
  {
    if vs == [] then Visit(true, order)
    else
      var r := Walk(g, vs[0], current, cap, order);
      if !r.ok then r
      else
        Shrinks(g, order, r.order);
        WalkAll(g, vs[1..], current, cap, r.order)
  }

  lemma Shrinks(g: Graph, order: seq<nat>, order': seq<nat>)
    requires order <= order'
    ensures g.Keys - Elements(order') <= g.Keys - Elements(order)
    ensures g.Keys - Elements(order') == g.Keys - Elements(order) ||
            g.Keys - Elements(order') < g.Keys - Elements(order)
  {
    forall x | x in order ensures x in order' {
      var i :| 0 <= i < |order| && order[i] == x;
      assert order'[i] == x;
    }
  }

  // ---------------------------------------------------------------- paths from the root

  /** `p` lists the containers along a chain of references that starts at `root`; it has `|p| - 1` edges. */
  ghost predicate Path(g: Graph, root: Value, p: seq<nat>) {
    && p != [] && root == Ref(p[0])
    && (forall i :: 0 <= i < |p| ==> p[i] in g)
    && (forall i :: 0 <= i < |p| - 1 ==> Link(g, p, i))
  }

  ghost predicate Link(g: Graph, p: seq<nat>, i: nat)
    requires i < |p| - 1
  {
    p[i] in g && Ref(p[i + 1]) in g[p[i]]
  }

  function Edges(p: seq<nat>): int { |p| - 1 }

  ghost predicate Deep(g: Graph, root: Value, cap: int) {
    exists p :: Path(g, root, p) && Edges(p) > cap
  }

  /** Container `n` is at the end of some chain of at most `cap` edges. */
  ghost predicate Shallow(g: Graph, root: Value, cap: int, n: nat) {
    exists p :: Path(g, root, p) && p[|p| - 1] == n && Edges(p) <= cap
  }

  ghost predicate Reachable(g: Graph, root: Value, n: nat) {
    exists p :: Path(g, root, p) && p[|p| - 1] == n
  }

  ghost predicate Among(vs: seq<Value>, ws: seq<Value>) {
    forall v :: v in vs ==> v in ws
  }

  lemma FirstAndRest(g: Graph, n: nat, vs: seq<Value>)
    requires Closed(g) && n in g && vs != [] && Among(vs, g[n])
    ensures vs[0] in g[n] && Known(g, vs[0]) && Among(vs[1..], g[n])
    ensures forall v :: v in vs[1..] ==> Known(g, v)
  {
    assert vs[0] in vs;
  }

  lemma ExtendPath(g: Graph, root: Value, p: seq<nat>, n: nat)
    requires Closed(g) && Path(g, root, p) && Ref(n) in g[p[|p| - 1]]
    ensures Path(g, root, p + [n])
  {
    var q := p + [n];
    assert Known(g, Ref(n));
    forall i | 0 <= i < |q| - 1
      ensures Link(g, q, i)
    {
      if i < |p| - 1 {
        assert Link(g, p, i);
      }
    }
  }

  // ---------------------------------------------------------------- a raise means a chain that is too deep

  lemma {:induction false} RaiseIsDeep(g: Graph, root: Value, p: seq<nat>, cap: int, order: seq<nat>)
    requires Closed(g) && Path(g, root, p)
    requires !Walk(g, Ref(p[|p| - 1]), Edges(p), cap, order).ok
    ensures Deep(g, root, cap)
    decreases g.Keys - Elements(order), 0
  {
    var n := p[|p| - 1];
    if Edges(p) <= cap {
      assert n in Elements(order + [n]);
      RaiseAmongChildren(g, root, p, g[n], cap, order + [n]);
    }
  }

  lemma {:induction false} RaiseAmongChildren(
    g: Graph, root: Value, p: seq<nat>, vs: seq<Value>, cap: int, order: seq<nat>)
    requires Closed(g) && Path(g, root, p)
    requires Among(vs, g[p[|p| - 1]])
    requires !WalkAll(g, vs, |p|, cap, order).ok
    ensures Deep(g, root, cap)
    decreases g.Keys - Elements(order), |vs| + 1
  {
    FirstAndRest(g, p[|p| - 1], vs);
    var r := Walk(g, vs[0], |p|, cap, order);
    if r.ok {
      Shrinks(g, order, r.order);
      RaiseAmongChildren(g, root, p, vs[1..], cap, r.order);
    } else {
      var n := vs[0].id;
      ExtendPath(g, root, p, n);
      assert Edges(p + [n]) == |p|;
      RaiseIsDeep(g, root, p + [n], cap, order);
    }
  }

  // ---------------------------------------------------------------- a return covers everything within the cap

  /** What a walk that returned has added: distinct containers, each within the cap, all children covered. */
  ghost predicate Covered(g: Graph, root: Value, cap: int, before: seq<nat>, after: seq<nat>) {
    && before <= after
    && forall k :: |before| <= k < |after| ==>
         after[k] in g && Shallow(g, root, cap, after[k]) && ChildrenIn(g[after[k]], after)
  }

  ghost predicate ChildrenIn(vs: seq<Value>, order: seq<nat>) {
    forall v :: v in vs && v.Ref? ==> v.id in order
  }

  lemma Grow(vs: seq<Value>, order: seq<nat>, order': seq<nat>)
    requires order <= order' && ChildrenIn(vs, order)
    ensures ChildrenIn(vs, order')
  {
    forall v | v in vs && v.Ref? ensures v.id in order' {
      var i :| 0 <= i < |order| && order[i] == v.id;
      assert order'[i] == v.id;
    }
  }

  lemma CoveredTwice(g: Graph, root: Value, cap: int, a: seq<nat>, b: seq<nat>, c: seq<nat>)
    requires Covered(g, root, cap, a, b) && Covered(g, root, cap, b, c)
    ensures Covered(g, root, cap, a, c)
  {
    forall k | |a| <= k < |c|
      ensures c[k] in g && Shallow(g, root, cap, c[k]) && ChildrenIn(g[c[k]], c)
    {
      if k < |b| {
        assert c[k] == b[k];
        Grow(g[b[k]], b, c);
      }
    }
  }

  lemma {:induction false} ReturnCovers(g: Graph, root: Value, p: seq<nat>, cap: int, order: seq<nat>)
    requires Closed(g) && Path(g, root, p)
    requires Walk(g, Ref(p[|p| - 1]), Edges(p), cap, order).ok
    ensures Covered(g, root, cap, order, Walk(g, Ref(p[|p| - 1]), Edges(p), cap, order).order)
    ensures p[|p| - 1] in Walk(g, Ref(p[|p| - 1]), Edges(p), cap, order).order
    decreases g.Keys - Elements(order), 0
  {
    var n := p[|p| - 1];
    if n !in order {
      var order1 := order + [n];
      assert n in Elements(order1);
      ReturnCoversChildren(g, root, p, g[n], cap, order1);
      var r := WalkAll(g, g[n], |p|, cap, order1);
      assert r.order[|order|] == order1[|order|] == n;
      forall k | |order| <= k < |r.order|
        ensures r.order[k] in g && Shallow(g, root, cap, r.order[k]) && ChildrenIn(g[r.order[k]], r.order)
      {
      }
    }
  }

  lemma WalkScalar(g: Graph, current: nat, cap: int, order: seq<nat>)
    requires Closed(g)
    ensures Walk(g, Scalar, current, cap, order) == Visit(true, order)
  {
  }

  lemma {:induction false} FirstChildCovered(g: Graph, root: Value, p: seq<nat>, v: Value, cap: int, order: seq<nat>)
    requires Closed(g) && Path(g, root, p) && v in g[p[|p| - 1]] && Known(g, v)
    requires Walk(g, v, |p|, cap, order).ok
    ensures Covered(g, root, cap, order, Walk(g, v, |p|, cap, order).order)
    ensures ChildrenIn([v], Walk(g, v, |p|, cap, order).order)
    decreases g.Keys - Elements(order), 1
  {
    if v.Ref? {
      ExtendPath(g, root, p, v.id);
      assert Edges(p + [v.id]) == |p|;
      ReturnCovers(g, root, p + [v.id], cap, order);
    } else {
      WalkScalar(g, |p|, cap, order);
    }
  }

  lemma {:induction false} ReturnCoversChildren(
    g: Graph, root: Value, p: seq<nat>, vs: seq<Value>, cap: int, order: seq<nat>)
    requires Closed(g) && Path(g, root, p)
    requires Among(vs, g[p[|p| - 1]])
    requires WalkAll(g, vs, |p|, cap, order).ok
    ensures Covered(g, root, cap, order, WalkAll(g, vs, |p|, cap, order).order)
    ensures ChildrenIn(vs, WalkAll(g, vs, |p|, cap, order).order)
    decreases g.Keys - Elements(order), |vs| + 2
  {
    assert p != [] && p[|p| - 1] in g;
    hide Path, Shallow, Walk;
    if vs == [] {
      assert Covered(g, root, cap, order, order);
    } else {
      hide Covered;
      FirstAndRest(g, p[|p| - 1], vs);
      var r := Walk(g, vs[0], |p|, cap, order);
      var r' := WalkAll(g, vs[1..], |p|, cap, r.order);
      FirstChildCovered(g, root, p, vs[0], cap, order);
      Grow([vs[0]], r.order, r'.order);
      Shrinks(g, order, r.order);
      ReturnCoversChildren(g, root, p, vs[1..], cap, r.order);
      CoveredTwice(g, root, cap, order, r.order, r'.order);
      assert vs == [vs[0]] + vs[1..];
    }
  }

  lemma {:induction false} PathStaysInside(g: Graph, root: Value, p: seq<nat>, order: seq<nat>)
    requires Path(g, root, p) && root.id in order
    requires forall k :: 0 <= k < |order| ==> order[k] in g && ChildrenIn(g[order[k]], order)
    ensures p[|p| - 1] in order
  {
    if |p| > 1 {
      var q := p[..|p| - 1];
      forall i | 0 <= i < |q| - 1 ensures Link(g, q, i) {
        assert Link(g, p, i);
      }
      PathStaysInside(g, root, q, order);
      var n := q[|q| - 1];
      var k :| 0 <= k < |order| && order[k] == n;
      assert Link(g, p, |p| - 2);
    }
  }

  // ---------------------------------------------------------------- main results

  /** On any graph, shared or cyclic, the walk expands each container at most once. If it raises, some chain
      from the root is deeper than the cap; if it returns, the containers it expanded are exactly the reachable
      ones, and each has a chain from the root within the cap. */
  lemma WalkSound(g: Graph, root: nat, cap: int)
    requires Closed(g) && root in g
    ensures var r := Walk(g, Ref(root), 0, cap, []);
            && (!r.ok ==> Deep(g, Ref(root), cap))
            && Distinct(r.order)
            && (r.ok ==> forall n :: n in r.order <==> Reachable(g, Ref(root), n))
            && (r.ok ==> forall n :: Reachable(g, Ref(root), n) ==> Shallow(g, Ref(root), cap, n))
  {
    var r := Walk(g, Ref(root), 0, cap, []);
    assert Path(g, Ref(root), [root]) && Edges([root]) == 0;
    if r.ok {
      ReturnCovers(g, Ref(root), [root], cap, []);
      forall n | Reachable(g, Ref(root), n) ensures n in r.order && Shallow(g, Ref(root), cap, n) {
        var p :| Path(g, Ref(root), p) && p[|p| - 1] == n;
        PathStaysInside(g, Ref(root), p, r.order);
      }
    } else {
      RaiseIsDeep(g, Ref(root), [root], cap, []);
    }
  }

  /** Any two chains from the root to the same container are equally long; in a tree they are even equal. */
  ghost predicate Layered(g: Graph, root: Value) {
    forall p, q :: Path(g, root, p) && Path(g, root, q) && p[|p| - 1] == q[|q| - 1] ==> |p| == |q|
  }

  ghost predicate Tree(g: Graph, root: Value) {
    forall p, q :: Path(g, root, p) && Path(g, root, q) && p[|p| - 1] == q[|q| - 1] ==> p == q
  }

  /** On a layered graph, a tree among them, the walk returns exactly when no chain is deeper than the cap. */
  lemma LayeredExact(g: Graph, root: nat, cap: int)
    requires Closed(g) && root in g && Layered(g, Ref(root))
    ensures Walk(g, Ref(root), 0, cap, []).ok <==> !Deep(g, Ref(root), cap)
  {
    WalkSound(g, root, cap);
    if Walk(g, Ref(root), 0, cap, []).ok && Deep(g, Ref(root), cap) {
      var p :| Path(g, Ref(root), p) && Edges(p) > cap;
      assert Reachable(g, Ref(root), p[|p| - 1]);
      assert false;
    }
  }

  lemma TreeExact(g: Graph, root: nat, cap: int)
    requires Closed(g) && root in g && Tree(g, Ref(root))
    ensures Walk(g, Ref(root), 0, cap, []).ok <==> forall p :: Path(g, Ref(root), p) ==> Edges(p) <= cap
  {
    assert Layered(g, Ref(root));
    LayeredExact(g, root, cap);
  }

  /** Sharing hides depth: this graph has a chain of three edges, and the walk returns with a cap of two. With
      the root's children in the other order it raises. */
  lemma SharingHidesDepth()
    ensures var g: Graph := map[0 := [Ref(2), Ref(1)], 1 := [Ref(2)], 2 := [Ref(3)], 3 := []];
            Closed(g) && Deep(g, Ref(0), 2) && Walk(g, Ref(0), 0, 2, []).ok
    ensures var g: Graph := map[0 := [Ref(1), Ref(2)], 1 := [Ref(2)], 2 := [Ref(3)], 3 := []];
            Closed(g) && !Walk(g, Ref(0), 0, 2, []).ok
  {
    var g: Graph := map[0 := [Ref(2), Ref(1)], 1 := [Ref(2)], 2 := [Ref(3)], 3 := []];
    assert Path(g, Ref(0), [0, 1, 2, 3]) && Edges([0, 1, 2, 3]) == 3;
    SharedReturns(g);
    var h: Graph := map[0 := [Ref(1), Ref(2)], 1 := [Ref(2)], 2 := [Ref(3)], 3 := []];
    SharedRaises(h);
  }

  /** One step of the walk at a container seen for the first time, by number of children. */
  lemma WalkLeaf(g: Graph, n: nat, current: nat, cap: int, order: seq<nat>)
    requires Closed(g) && n in g && g[n] == [] && current <= cap && n !in order
    ensures Walk(g, Ref(n), current, cap, order) == Visit(true, order + [n])
  {
  }

  lemma WalkLast(g: Graph, vs: seq<Value>, current: nat, cap: int, order: seq<nat>)
    requires Closed(g) && |vs| == 1 && Known(g, vs[0])
    ensures WalkAll(g, vs, current, cap, order) == Walk(g, vs[0], current, cap, order)
  {
    var r := Walk(g, vs[0], current, cap, order);
    assert vs[1..] == [] && WalkAll(g, [], current, cap, r.order) == Visit(true, r.order);
  }

  lemma WalkOne(g: Graph, n: nat, m: nat, current: nat, cap: int, order: seq<nat>)
    requires Closed(g) && n in g && m in g && g[n] == [Ref(m)] && current <= cap && n !in order
    ensures Walk(g, Ref(n), current, cap, order) == Walk(g, Ref(m), current + 1, cap, order + [n])
  {
    WalkLast(g, g[n], current + 1, cap, order + [n]);
  }

  lemma WalkTwo(g: Graph, n: nat, a: nat, b: nat, current: nat, cap: int, order: seq<nat>)
    requires Closed(g) && n in g && a in g && b in g && g[n] == [Ref(a), Ref(b)] && current <= cap && n !in order
    ensures var first := Walk(g, Ref(a), current + 1, cap, order + [n]);
            Walk(g, Ref(n), current, cap, order) ==
            if first.ok then Walk(g, Ref(b), current + 1, cap, first.order) else first
  {
    var first := Walk(g, Ref(a), current + 1, cap, order + [n]);
    assert g[n][1..] == [Ref(b)];
    if first.ok {
      WalkLast(g, [Ref(b)], current + 1, cap, first.order);
    }
  }

  lemma SharedReturns(g: Graph)
    requires g == map[0 := [Ref(2), Ref(1)], 1 := [Ref(2)], 2 := [Ref(3)], 3 := []]
    ensures Closed(g) && Walk(g, Ref(0), 0, 2, []).ok
  {
    hide WalkAll;
    WalkTwo(g, 0, 2, 1, 0, 2, []);
    WalkOne(g, 2, 3, 1, 2, [] + [0]);
    WalkLeaf(g, 3, 2, 2, [] + [0] + [2]);
    var order := [] + [0] + [2] + [3];
    assert order == [0, 2, 3];
    WalkOne(g, 1, 2, 1, 2, order);
    assert 2 in order + [1] by { assert (order + [1])[1] == 2; }
  }

  lemma SharedRaises(g: Graph)
    requires g == map[0 := [Ref(1), Ref(2)], 1 := [Ref(2)], 2 := [Ref(3)], 3 := []]
    ensures Closed(g) && !Walk(g, Ref(0), 0, 2, []).ok
  {
    hide WalkAll;
    WalkTwo(g, 0, 1, 2, 0, 2, []);
    WalkOne(g, 1, 2, 1, 2, [] + [0]);
    WalkOne(g, 2, 3, 2, 2, [] + [0] + [1]);
  }

  // ---------------------------------------------------------------- exactly when the walk returns

  /** `q` follows references from one of `vs`, through containers outside `avoid`. */
  ghost predicate Trail(g: Graph, vs: seq<Value>, avoid: seq<nat>, q: seq<nat>) {
    && q != [] && Ref(q[0]) in vs
    && (forall t :: 0 <= t < |q| ==> q[t] in g && q[t] !in avoid)
    && (forall t :: 0 <= t < |q| - 1 ==> Link(g, q, t))
  }

  /** Container `x` is reachable from one of `vs` around `avoid`. */
  ghost predicate Around(g: Graph, vs: seq<Value>, avoid: seq<nat>, x: nat) {
    exists q :: Trail(g, vs, avoid, q) && q[|q| - 1] == x
  }

  /** The values listed before the first reference to `m`. */
  function Before(vs: seq<Value>, m: nat): seq<Value> {
    if vs == [] || vs[0] == Ref(m) then [] else [vs[0]] + Before(vs[1..], m)
  }

  /** The `k`-th container of the chain is not reachable from an earlier sibling of its `i + 1`-st one around the
      chain up to there. */
  ghost predicate NotOvertaken(g: Graph, p: seq<nat>, i: nat, k: nat)
    requires i < k < |p| && p[i] in g
  {
    !Around(g, Before(g[p[i]], p[i + 1]), p[..i + 1], p[k])
  }

  /** A simple chain from the root none of whose containers is reached sooner through an earlier sibling. */
  ghost predicate Leading(g: Graph, root: nat, p: seq<nat>) {
    && Path(g, Ref(root), p) && Distinct(p)
    && forall i, k :: 0 <= i < k < |p| ==> NotOvertaken(g, p, i, k)
  }

  /** If the last container of the chain holds another one, the chain is within the cap. */
  ghost predicate Fits(g: Graph, p: seq<nat>, cap: int)
    requires p != [] && p[|p| - 1] in g
  {
    HasRef(g[p[|p| - 1]]) ==> |p| <= cap
  }

  ghost predicate HasRef(vs: seq<Value>) { exists m :: Ref(m) in vs }

  lemma TrailStep(g: Graph, c: nat, avoid: seq<nat>, x: nat)
    requires c in g && c !in avoid && Around(g, g[c], avoid + [c], x)
    ensures Around(g, [Ref(c)], avoid, x)
  {
    var q :| Trail(g, g[c], avoid + [c], q) && q[|q| - 1] == x;
    var q' := [c] + q;
    forall t | 0 <= t < |q'| ensures q'[t] in g && q'[t] !in avoid {
      assert t > 0 ==> q'[t] == q[t - 1];
    }
    forall t | 0 <= t < |q'| - 1 ensures Link(g, q', t) {
      assert t > 0 ==> Link(g, q, t - 1);
    }
    assert Trail(g, [Ref(c)], avoid, q');
  }

  lemma TrailWeaken(g: Graph, vs: seq<Value>, vs': seq<Value>, avoid: seq<nat>, avoid': seq<nat>, x: nat)
    requires Around(g, vs, avoid, x) && Among(vs, vs') && forall n :: n in avoid' ==> n in avoid
    ensures Around(g, vs', avoid', x)
  {
    var q :| Trail(g, vs, avoid, q) && q[|q| - 1] == x;
    assert Trail(g, vs', avoid', q);
  }

  lemma TrailHere(g: Graph, c: nat, avoid: seq<nat>)
    requires c in g && c !in avoid
    ensures Around(g, [Ref(c)], avoid, c)
  {
    assert Trail(g, [Ref(c)], avoid, [c]);
  }

  lemma AroundEither(g: Graph, us: seq<Value>, v: Value, avoid: seq<nat>, x: nat)
    ensures Around(g, us + [v], avoid, x) <==> Around(g, us, avoid, x) || Around(g, [v], avoid, x)
  {
    if Around(g, us + [v], avoid, x) {
      var q :| Trail(g, us + [v], avoid, q) && q[|q| - 1] == x;
      assert Trail(g, if Ref(q[0]) in us then us else [v], avoid, q);
    }
    if Around(g, us, avoid, x) {
      TrailWeaken(g, us, us + [v], avoid, avoid, x);
    }
    if Around(g, [v], avoid, x) {
      TrailWeaken(g, [v], us + [v], avoid, avoid, x);
    }
  }

  /** What was added to the memo was reached around it, and its children are in it too. */
  ghost predicate Added(g: Graph, vs: seq<Value>, before: seq<nat>, after: seq<nat>) {
    && before <= after
    && forall k :: |before| <= k < |after| ==> AddedAt(g, vs, before, after, k)
  }

  ghost predicate AddedAt(g: Graph, vs: seq<Value>, before: seq<nat>, after: seq<nat>, k: nat)
    requires k < |after|
  {
    after[k] in g && ChildrenIn(g[after[k]], after) && Around(g, vs, before, after[k])
  }

  lemma AddedTwice(g: Graph, v: Value, vs: seq<Value>, a: seq<nat>, b: seq<nat>, c: seq<nat>)
    requires Added(g, [v], a, b) && Added(g, vs, b, c)
    ensures Added(g, [v] + vs, a, c)
  {
    forall k | |a| <= k < |c| ensures AddedAt(g, [v] + vs, a, c, k) {
      if k < |b| {
        assert AddedAt(g, [v], a, b, k) && c[k] == b[k];
        Grow(g[b[k]], b, c);
        TrailWeaken(g, [v], [v] + vs, a, a, b[k]);
      } else {
        assert AddedAt(g, vs, b, c, k);
        TrailWeaken(g, vs, [v] + vs, b, a, c[k]);
      }
    }
  }

  lemma {:induction false} WalkAdds(g: Graph, v: Value, current: nat, cap: int, order: seq<nat>)
    requires Closed(g) && Known(g, v) && Walk(g, v, current, cap, order).ok
    ensures Added(g, [v], order, Walk(g, v, current, cap, order).order)
    ensures ChildrenIn([v], Walk(g, v, current, cap, order).order)
    decreases g.Keys - Elements(order), 0
  {
    if v.Ref? && v.id !in order {
      var c, order1 := v.id, order + [v.id];
      assert c in Elements(order1);
      WalkAllAdds(g, g[c], current + 1, cap, order1);
      var after := WalkAll(g, g[c], current + 1, cap, order1).order;
      assert after[|order|] == order1[|order|] == c;
      forall k | |order| <= k < |after| ensures AddedAt(g, [v], order, after, k) {
        if k == |order| {
          TrailHere(g, c, order);
        } else {
          assert AddedAt(g, g[c], order1, after, k);
          TrailStep(g, c, order, after[k]);
        }
      }
    }
  }

  lemma {:induction false} WalkAllAdds(g: Graph, vs: seq<Value>, current: nat, cap: int, order: seq<nat>)
    requires Closed(g) && (forall v :: v in vs ==> Known(g, v)) && WalkAll(g, vs, current, cap, order).ok
    ensures Added(g, vs, order, WalkAll(g, vs, current, cap, order).order)
    ensures ChildrenIn(vs, WalkAll(g, vs, current, cap, order).order)
    decreases g.Keys - Elements(order), |vs| + 1
  {
    if vs != [] {
      var b := Walk(g, vs[0], current, cap, order).order;
      var c := WalkAll(g, vs[1..], current, cap, b).order;
      WalkAdds(g, vs[0], current, cap, order);
      Shrinks(g, order, b);
      WalkAllAdds(g, vs[1..], current, cap, b);
      Grow([vs[0]], b, c);
      assert vs == [vs[0]] + vs[1..];
      AddedTwice(g, vs[0], vs[1..], order, b, c);
    }
  }

  /** Containers of the memo outside `open` have all their children in it. */
  ghost predicate Finished(g: Graph, open: seq<nat>, order: seq<nat>) {
    forall n :: n in order && n !in open ==> n in g && ChildrenIn(g[n], order)
  }

  /** A trail that is in such a memo once, and around the open containers, stays in it. */
  lemma {:induction false} TrailStaysIn(g: Graph, vs: seq<Value>, open: seq<nat>, order: seq<nat>, q: seq<nat>, t: nat)
    requires Finished(g, open, order) && Trail(g, vs, open, q) && t < |q| && q[t] in order
    ensures q[|q| - 1] in order
    decreases |q| - t
  {
    if t < |q| - 1 {
      assert Link(g, q, t);
      TrailStaysIn(g, vs, open, order, q, t + 1);
    }
  }

  /** A walk adds exactly what can be reached around the containers that are still open. */
  lemma WalkReaches(g: Graph, v: Value, current: nat, cap: int, open: seq<nat>, order: seq<nat>)
    requires Closed(g) && Known(g, v) && Walk(g, v, current, cap, order).ok
    requires Finished(g, open, order) && forall n :: n in open ==> n in order
    ensures var after := Walk(g, v, current, cap, order).order;
            Finished(g, open, after) && forall x :: x in after <==> x in order || Around(g, [v], open, x)
  {
    hide Walk;
    var after := Walk(g, v, current, cap, order).order;
    WalkAdds(g, v, current, cap, order);
    forall n | n in after && n !in open ensures n in g && ChildrenIn(g[n], after) {
      if n in order {
        Grow(g[n], order, after);
      } else {
        var k :| 0 <= k < |after| && after[k] == n;
        assert AddedAt(g, [v], order, after, k);
      }
    }
    forall x ensures x in after <==> x in order || Around(g, [v], open, x) {
      if x in after && x !in order {
        var k :| 0 <= k < |after| && after[k] == x;
        assert AddedAt(g, [v], order, after, k);
        TrailWeaken(g, [v], [v], order, open, x);
      }
      if x in order {
        var k :| 0 <= k < |order| && order[k] == x;
        assert after[k] == x;
      }
      if Around(g, [v], open, x) {
        var q :| Trail(g, [v], open, q) && q[|q| - 1] == x;
        TrailStaysIn(g, [v], open, after, q, 0);
      }
    }
  }

  /** The memo while the children `us` of the chain's end are done: the chain, and what its earlier siblings and
      `us` reach around it. */
  ghost predicate MemoIs(g: Graph, p: seq<nat>, us: seq<Value>, order: seq<nat>)
    requires forall i :: 0 <= i < |p| ==> p[i] in g
  {
    forall x :: x in order <==> x in p || Sooner(g, p, x) || Around(g, us, p, x)
  }

  ghost predicate Sooner(g: Graph, p: seq<nat>, x: nat)
    requires forall i :: 0 <= i < |p| ==> p[i] in g
  {
    exists i :: 0 <= i < |p| - 1 && SoonerAt(g, p, i, x)
  }

  ghost predicate SoonerAt(g: Graph, p: seq<nat>, i: nat, x: nat)
    requires i < |p| - 1 && p[i] in g
  {
    Around(g, Before(g[p[i]], p[i + 1]), p[..i + 1], x)
  }

  lemma {:induction false} BeforeFirst(us: seq<Value>, m: nat, vs: seq<Value>)
    requires Ref(m) !in us
    ensures Before(us + [Ref(m)] + vs, m) == us
  {
    var all := us + [Ref(m)] + vs;
    if us != [] {
      assert all[1..] == us[1..] + [Ref(m)] + vs;
      BeforeFirst(us[1..], m, vs);
      assert [us[0]] + us[1..] == us;
    }
  }

  /** Going one container further, the earlier siblings of the old chain and of the new container count. */
  lemma SoonerExtends(g: Graph, p: seq<nat>, us: seq<Value>, c: nat, vs: seq<Value>, x: nat)
    requires p != [] && (forall i :: 0 <= i < |p| ==> p[i] in g) && c in g
    requires g[p[|p| - 1]] == us + [Ref(c)] + vs && Ref(c) !in us
    ensures Sooner(g, p + [c], x) <==> Sooner(g, p, x) || Around(g, us, p, x)
  {
    var p', n := p + [c], |p| - 1;
    BeforeFirst(us, c, vs);
    assert p'[..n + 1] == p;
    assert SoonerAt(g, p', n, x) <==> Around(g, us, p, x);
    forall i | 0 <= i < n ensures SoonerAt(g, p', i, x) <==> SoonerAt(g, p, i, x) {
      assert p'[..i + 1] == p[..i + 1];
    }
  }

  lemma OvertakenIsSooner(g: Graph, root: nat, p: seq<nat>, q: seq<nat>)
    requires Leading(g, root, q) && p < q && p != []
    ensures q[|p|] !in p && !Sooner(g, p + [q[|p|]], q[|p|])
  {
    var c, p' := q[|p|], p + [q[|p|]];
    forall i | 0 <= i < |p| ensures p[i] != c {
      assert q[i] == p[i];
    }
    forall i | 0 <= i < |p'| - 1 ensures !SoonerAt(g, p', i, c) {
      assert NotOvertaken(g, q, i, |p|);
      assert p'[..i + 1] == q[..i + 1] && p'[i] == q[i] && p'[i + 1] == q[i + 1];
    }
  }

  /** The chain may be led one container further exactly when that container is not in the memo yet. */
  lemma LeadingExtends(g: Graph, root: nat, p: seq<nat>, us: seq<Value>, c: nat, vs: seq<Value>, order: seq<nat>)
    requires Closed(g) && Leading(g, root, p) && c in g && g[p[|p| - 1]] == us + [Ref(c)] + vs
    requires MemoIs(g, p, us, order) && c !in order
    ensures Ref(c) !in us && Leading(g, root, p + [c]) && MemoIs(g, p + [c], [], order + [c])
  {
    var p' := p + [c];
    if Ref(c) in us {
      TrailHere(g, c, p);
      TrailWeaken(g, [Ref(c)], us, p, p, c);
      assert false;
    }
    assert Ref(c) in g[p[|p| - 1]];
    ExtendPath(g, Ref(root), p, c);
    forall i, k | 0 <= i < k < |p'| ensures NotOvertaken(g, p', i, k) {
      assert p'[..i + 1] == p[..i + 1];
      if k < |p| {
        assert NotOvertaken(g, p, i, k);
      } else {
        SoonerExtends(g, p, us, c, vs, c);
        assert !SoonerAt(g, p', i, c);
      }
    }
    forall x ensures x in order + [c] <==> x in p' || Sooner(g, p', x) || Around(g, [], p', x) {
      SoonerExtends(g, p, us, c, vs, x);
    }
  }

  /** No leading chain goes on through a container that is already in the memo. */
  lemma NoneThroughMemo(
    g: Graph, root: nat, p: seq<nat>, us: seq<Value>, c: nat, vs: seq<Value>, order: seq<nat>, q: seq<nat>)
    requires Closed(g) && Leading(g, root, p) && c in g && g[p[|p| - 1]] == us + [Ref(c)] + vs
    requires MemoIs(g, p, us, order) && c in order && Ref(c) !in us
    ensures !(Leading(g, root, q) && p + [c] <= q)
  {
    if Leading(g, root, q) && p + [c] <= q {
      assert q[|p|] == c;
      assert p < q;
      OvertakenIsSooner(g, root, p, q);
      SoonerExtends(g, p, us, c, vs, c);
    }
  }

  /** Every leading chain that goes on from `p` through a child not among `us` fits. */
  ghost predicate FitFrom(g: Graph, root: nat, p: seq<nat>, us: seq<Value>, cap: int) {
    forall q :: Leading(g, root, q) && p < q && Ref(q[|p|]) !in us ==> Fits(g, q, cap)
  }

  /** Every leading chain from `p` on, `p` included, fits. */
  ghost predicate FitAll(g: Graph, root: nat, p: seq<nat>, cap: int) {
    forall q :: Leading(g, root, q) && p <= q ==> Fits(g, q, cap)
  }

  lemma FitSplits(g: Graph, root: nat, p: seq<nat>, us: seq<Value>, c: nat, cap: int)
    requires Ref(c) !in us
    ensures FitFrom(g, root, p, us, cap) <==> FitFrom(g, root, p, us + [Ref(c)], cap) && FitAll(g, root, p + [c], cap)
  {
    var p' := p + [c];
    forall q ensures p' <= q <==> p < q && q[|p|] == c {
      if p < q && q[|p|] == c {
        assert q[..|p'|] == p';
      }
    }
  }

  lemma FitSame(g: Graph, root: nat, p: seq<nat>, us: seq<Value>, v: Value, cap: int)
    requires v.Scalar? || v in us
    ensures FitFrom(g, root, p, us, cap) <==> FitFrom(g, root, p, us + [v], cap)
  {
  }

  /** Of a leading chain, all that fits is itself and what goes on from it. */
  lemma FitHere(g: Graph, root: nat, p: seq<nat>, cap: int)
    requires Leading(g, root, p)
    ensures FitAll(g, root, p, cap) <==> Fits(g, p, cap) && FitFrom(g, root, p, [], cap)
  {
  }

  /** Walking the child `c` of a leading chain returns exactly when the child is within the cap and all leading
      chains through it fit. */
  lemma {:induction false} ChildExact(
    g: Graph, root: nat, p: seq<nat>, us: seq<Value>, c: nat, vs: seq<Value>, cap: int, order: seq<nat>)
    requires Closed(g) && Leading(g, root, p) && c in g && g[p[|p| - 1]] == us + [Ref(c)] + vs
    requires MemoIs(g, p, us, order) && Finished(g, p, order)
    ensures Walk(g, Ref(c), |p|, cap, order).ok <==> |p| <= cap && (Ref(c) in us || FitAll(g, root, p + [c], cap))
    decreases g.Keys - Elements(order), 0
  {
    hide Leading, MemoIs, Fits, Sooner;
    if c in order {
      if Ref(c) !in us {
        forall q ensures !(Leading(g, root, q) && p + [c] <= q) {
          NoneThroughMemo(g, root, p, us, c, vs, order, q);
        }
      }
    } else if |p| <= cap {
      var p', order' := p + [c], order + [c];
      LeadingExtends(g, root, p, us, c, vs, order);
      FinishedExtends(g, p, c, order);
      assert c in Elements(order');
      ChildrenExact(g, root, p', [], g[c], cap, order');
      FitHere(g, root, p', cap);
      assert Fits(g, p', cap) <==> (HasRef(g[c]) ==> |p'| <= cap) by { FitsAt(g, p, c, cap); }
    }
  }

  lemma FitsAt(g: Graph, p: seq<nat>, c: nat, cap: int)
    requires c in g
    ensures Fits(g, p + [c], cap) <==> (HasRef(g[c]) ==> |p| + 1 <= cap)
  {
  }

  lemma FinishedExtends(g: Graph, p: seq<nat>, c: nat, order: seq<nat>)
    requires Finished(g, p, order)
    ensures Finished(g, p + [c], order + [c])
  {
    forall n | n in order + [c] && n !in p + [c] ensures n in g && ChildrenIn(g[n], order + [c]) {
      assert n in order && n !in p;
      Grow(g[n], order, order + [c]);
    }
  }

  lemma MemoHoldsChain(g: Graph, p: seq<nat>, us: seq<Value>, order: seq<nat>)
    requires (forall i :: 0 <= i < |p| ==> p[i] in g) && MemoIs(g, p, us, order)
    ensures forall n :: n in p ==> n in order
  {
  }

  /** After a child of the chain's end is walked, the memo counts it among those that are done. */
  lemma MemoGrows(g: Graph, p: seq<nat>, us: seq<Value>, v: Value, cap: int, order: seq<nat>)
    requires Closed(g) && (forall i :: 0 <= i < |p| ==> p[i] in g) && Known(g, v)
    requires MemoIs(g, p, us, order) && Finished(g, p, order) && Walk(g, v, |p|, cap, order).ok
    ensures var after := Walk(g, v, |p|, cap, order).order; MemoIs(g, p, us + [v], after) && Finished(g, p, after)
  {
    hide Walk, Around, Sooner;
    MemoHoldsChain(g, p, us, order);
    WalkReaches(g, v, |p|, cap, p, order);
    forall x ensures Around(g, us + [v], p, x) <==> Around(g, us, p, x) || Around(g, [v], p, x) {
      AroundEither(g, us, v, p, x);
    }
  }

  lemma HasRefSplits(v: Value, vs: seq<Value>)
    ensures HasRef([v] + vs) <==> v.Ref? || HasRef(vs)
  {
    if v.Ref? {
      assert Ref(v.id) in [v] + vs;
    }
    if HasRef(vs) {
      var m :| Ref(m) in vs;
      assert Ref(m) in [v] + vs;
    }
  }

  /** Walking the remaining children `vs` of a leading chain returns exactly when they are within the cap, if
      there is a container among them, and all leading chains that go on through them fit. */
  lemma {:induction false} ChildrenExact(
    g: Graph, root: nat, p: seq<nat>, us: seq<Value>, vs: seq<Value>, cap: int, order: seq<nat>)
    requires Closed(g) && Leading(g, root, p) && g[p[|p| - 1]] == us + vs
    requires MemoIs(g, p, us, order) && Finished(g, p, order)
    requires forall v :: v in vs ==> Known(g, v)
    ensures WalkAll(g, vs, |p|, cap, order).ok <==> (HasRef(vs) ==> |p| <= cap) && FitFrom(g, root, p, us, cap)
    decreases g.Keys - Elements(order), |vs| + 1
  {
    hide MemoIs, Finished, Fits, HasRef, FitFrom, FitAll;
    if vs == [] {
      NothingLeft(g, root, p, us, cap);
    } else {
      var v, rest := vs[0], vs[1..];
      assert vs == [v] + rest && us + vs == us + [v] + rest;
      assert g[p[|p| - 1]] == (us + [v]) + rest;
      var r := Walk(g, v, |p|, cap, order);
      HasRefSplits(v, rest);
      if v.Ref? {
        ChildExact(g, root, p, us, v.id, rest, cap, order);
        if v in us {
          FitSame(g, root, p, us, v, cap);
        } else {
          FitSplits(g, root, p, us, v.id, cap);
        }
      } else {
        FitSame(g, root, p, us, v, cap);
      }
      if r.ok {
        MemoGrows(g, p, us, v, cap, order);
        Shrinks(g, order, r.order);
        ChildrenExact(g, root, p, us + [v], rest, cap, r.order);
      }
    }
  }

  lemma NothingLeft(g: Graph, root: nat, p: seq<nat>, us: seq<Value>, cap: int)
    requires Leading(g, root, p) && g[p[|p| - 1]] == us
    ensures FitFrom(g, root, p, us, cap) && !HasRef([])
  {
    forall q | Leading(g, root, q) && p < q ensures Ref(q[|p|]) in us {
      assert Link(g, q, |p| - 1);
    }
  }

  /** On any graph and for any cap, the walk returns exactly when no leading chain that reaches the cap's depth
      has a further link. The condition does not speak of the walk. */
  lemma WalkExact(g: Graph, root: nat, cap: int)
    requires Closed(g) && root in g
    ensures Walk(g, Ref(root), 0, cap, []).ok <==>
            0 <= cap && forall p, m :: Leading(g, root, p) && Ref(m) in g[p[|p| - 1]] ==> |p| <= cap
  {
    if 0 <= cap {
      var p := [root];
      assert Leading(g, root, p);
      assert [] + [root] == p;
      forall x ensures x in p <==> x in p || Sooner(g, p, x) || Around(g, [], p, x) { }
      ChildrenExact(g, root, p, [], g[root], cap, p);
      FitHere(g, root, p, cap);
      forall q | Leading(g, root, q) ensures p <= q { }
    }
  }

  /** Exactly when the cap means what it says on a graph: either no chain is too deep, or some leading chain with
      a further link is. */
  lemma CapExactIff(g: Graph, root: nat, cap: int)
    requires Closed(g) && root in g
    ensures (Walk(g, Ref(root), 0, cap, []).ok <==> !Deep(g, Ref(root), cap)) <==>
            || !Deep(g, Ref(root), cap)
            || cap < 0
            || exists p, m :: Leading(g, root, p) && Ref(m) in g[p[|p| - 1]] && |p| > cap
  {
    hide Walk, Leading;
    WalkExact(g, root, cap);
    WalkSound(g, root, cap);
  }

  // ---------------------------------------------------------------- the walker itself

  /** The memo of identities that one call shares among all its recursive visits. */
  class Seen {
    var ids: set<nat>
    ghost var order: seq<nat>

    ghost predicate Valid()
      reads this
    {
      ids == Elements(order)
    }

    constructor ()
      ensures Valid() && order == []
    {
      ids, order := {}, [];
    }
  }

  lemma Strictly(all: set<nat>, before: set<nat>, after: set<nat>, n: nat)
    requires before <= after && n in all && n !in before && n in after
    ensures all - after < all - before
  {
    assert n in all - before && n !in all - after;
  }

  method WalkInto(g: Graph, v: Value, current: nat, cap: int, seen: Seen) returns (ok: bool)
    requires Closed(g) && Known(g, v) && seen.Valid()
    modifies seen
    ensures seen.Valid()
    ensures Visit(ok, seen.order) == Walk(g, v, current, cap, old(seen.order))
    decreases g.Keys - seen.ids
  {
    if v.Scalar? {
      return true;
    }
    if current > cap {
      return false;
    }
    if v.id in seen.ids {
      return true;
    }
    seen.ids := seen.ids + {v.id};
    seen.order := seen.order + [v.id];
    ghost var start := seen.order;
    ghost var total := WalkAll(g, g[v.id], current + 1, cap, start);
    assert g[v.id][0..] == g[v.id];
    for i := 0 to |g[v.id]|
      invariant seen.Valid() && start <= seen.order
      invariant WalkAll(g, g[v.id][i..], current + 1, cap, seen.order) == total
    {
      assert g[v.id][i..][1..] == g[v.id][i + 1..];
      assert v.id == start[|start| - 1] == seen.order[|start| - 1];
      assert old(seen.ids) <= seen.ids by {
        Shrinks(g, old(seen.order), seen.order);
        forall x | x in old(seen.ids) ensures x in seen.ids {
          var k :| 0 <= k < |old(seen.order)| && old(seen.order)[k] == x;
          assert seen.order[k] == x;
        }
      }
      assert v.id in seen.order;
      Strictly(g.Keys, old(seen.ids), seen.ids, v.id);
      ok := WalkInto(g, g[v.id][i], current + 1, cap, seen);
      if !ok {
        return;
      }
    }
    ok := true;
  }

  method AssertMaxDepth(g: Graph, root: Value, cap: int) returns (ok: bool)
    requires Closed(g) && Known(g, root)
    ensures root.Scalar? ==> ok
    ensures root.Ref? ==> ok == Walk(g, root, 0, cap, []).ok
    ensures root.Ref? ==>
              (ok <==> 0 <= cap && forall p, m :: Leading(g, root.id, p) && Ref(m) in g[p[|p| - 1]] ==> |p| <= cap)
    ensures !ok ==> Deep(g, root, cap)
    ensures ok ==> forall n :: Reachable(g, root, n) ==> Shallow(g, root, cap, n)
  {
    var seen := new Seen();
    ok := WalkInto(g, root, 0, cap, seen);
    if root.Ref? {
      WalkSound(g, root.id, cap);
      WalkExact(g, root.id, cap);
    }
  }
}
