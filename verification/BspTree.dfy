/** The data a BSP build works on, and what a finished (sub)tree promises: which segs its leaves hold, how its
    leaves tile the seg list, how its nodes are numbered, and that every node's line separates its sides. */
module BspTree {
  import opened BspGeometry

  const SUBSECTOR_FLAG: nat := 0x8000
  const NO_SECTOR: nat := 0xFFFF
  const MAX_LEAF_SEGS: nat := 3

  datatype Linedef = Linedef(v1: nat, v2: nat, front: nat, back: nat)

  datatype Seg = Seg(v1: nat, v2: nat, linedef: nat, side: nat, sector: nat)

  datatype Subsector = Subsector(first: nat, num: nat, sector: nat)

  datatype Node = Node(line: Line, right: nat, left: nat)

  /** Everything the builder's lists hold. */
  datatype Bsp = Bsp(linedefs: seq<Linedef>, points: seq<Point>, segs: seq<Seg>, finals: seq<Seg>, subs: seq<Subsector>, nodes: seq<Node>)

  // ---- segs lie on the lines they come from

  predicate LinedefOk(b: Bsp, i: nat) { i < |b.linedefs| && b.linedefs[i].v1 < |b.points| && b.linedefs[i].v2 < |b.points| }

  /** The oriented line of the linedef side a seg belongs to. */
  function Carrier(b: Bsp, g: Seg): Line
    requires LinedefOk(b, g.linedef)
  {
    var a, c := b.points[b.linedefs[g.linedef].v1], b.points[b.linedefs[g.linedef].v2];
    if g.side == 0 then Through(a, c) else Through(c, a)
  }

  predicate Indexed(b: Bsp, g: Seg) { g.v1 < |b.points| && g.v2 < |b.points| && LinedefOk(b, g.linedef) }

  ghost predicate SegOk(b: Bsp, g: Seg) {
    Indexed(b, g) && exists scale: real :: Part(b.points[g.v1], b.points[g.v2], Carrier(b, g), scale)
  }

  ghost predicate BspOk(b: Bsp) {
    (forall k :: 0 <= k < |b.segs| ==> SegOk(b, b.segs[k])) && (forall f :: 0 <= f < |b.finals| ==> SegOk(b, b.finals[f]))
  }

  predicate Valid(b: Bsp, S: seq<nat>) { forall i :: 0 <= i < |S| ==> S[i] < |b.segs| }

  /** The builder only appends. */
  ghost predicate Grows(b: Bsp, b': Bsp) {
    b'.linedefs == b.linedefs && b.points <= b'.points && b.segs <= b'.segs && b.finals <= b'.finals && b.subs <= b'.subs && b.nodes <= b'.nodes
  }

  function Owner(g: Seg): (nat, nat, nat) { (g.linedef, g.side, g.sector) }

  // ---- sides

  /** Both ends of the seg on the right of the line, or on it. */
  predicate SegRight(b: Bsp, g: Seg, l: Line)
    requires Indexed(b, g)
  {
    Side(b.points[g.v1], l) >= 0.0 && Side(b.points[g.v2], l) >= 0.0
  }

  ghost predicate OnRight(b: Bsp, S: seq<nat>, l: Line)
    requires Valid(b, S) && BspOk(b)
  {
    forall i :: 0 <= i < |S| ==> SegRight(b, b.segs[S[i]], l)
  }

  ghost predicate FinalsRight(b: Bsp, lo: nat, hi: nat, l: Line)
    requires BspOk(b) && hi <= |b.finals|
  {
    forall f :: lo <= f < hi ==> SegRight(b, b.finals[f], l)
  }

  function Reverse(l: Line): Line { Line(l.x, l.y, -l.dx, -l.dy) }

  lemma ReverseSide(p: Point, l: Line)
    ensures Side(p, Reverse(l)) == -Side(p, l)
  {
  }

  // ---- trees

  datatype Tree = Leaf(sub: nat) | Inner(idx: nat, right: Tree, left: Tree)

  /** The subsectors of a tree, right before left, and its nodes, children before their parent. */
  function Subs(t: Tree): seq<nat> { match t case Leaf(s) => [s] case Inner(_, r, l) => Subs(r) + Subs(l) }

  function Nodes(t: Tree): seq<nat> { match t case Leaf(_) => [] case Inner(i, r, l) => Nodes(r) + Nodes(l) + [i] }

  /** `idx | SUBSECTOR_FLAG` */
  function Flagged(s: nat): nat { if s / SUBSECTOR_FLAG % 2 == 1 then s else s + SUBSECTOR_FLAG }

  /** The child number stands for this tree. */
  predicate Represents(subs: seq<Subsector>, nodes: seq<Node>, child: nat, t: Tree)
    decreases t
  {
    match t
    case Leaf(s) => s < |subs| && child == Flagged(s)
    case Inner(i, r, l) =>
      child == i < |nodes| && Represents(subs, nodes, nodes[i].right, r) && Represents(subs, nodes, nodes[i].left, l)
  }

  function Range(lo: nat, hi: nat): (s: seq<nat>)
    requires lo <= hi
    ensures |s| == hi - lo
  {
    seq(hi - lo, i requires 0 <= i < hi - lo => lo + i)
  }

  lemma RangeJoin(a: nat, b: nat, c: nat)
    requires a <= b <= c
    ensures Range(a, b) + Range(b, c) == Range(a, c)
  {
  }

  /** All segs of the subsector lie on the right of the line. */
  ghost predicate SubRight(b: Bsp, s: nat, l: Line) {
    s < |b.subs| && b.subs[s].first + b.subs[s].num <= |b.finals| &&
    forall f :: b.subs[s].first <= f < b.subs[s].first + b.subs[s].num ==> Indexed(b, b.finals[f]) && SegRight(b, b.finals[f], l)
  }

  ghost predicate SubsRight(b: Bsp, ss: seq<nat>, l: Line) { forall i :: 0 <= i < |ss| ==> SubRight(b, ss[i], l) }

  /** At every node all segs of the right subtree lie on the right of its line, and all of the left on the left. */
  ghost predicate Separated(b: Bsp, t: Tree) {
    match t
    case Leaf(_) => true
    case Inner(i, r, l) =>
      i < |b.nodes| && SubsRight(b, Subs(r), b.nodes[i].line) && SubsRight(b, Subs(l), Reverse(b.nodes[i].line)) && Separated(b, r) && Separated(b, l)
  }

  /** Subsectors s0 and up cut the final segs from `lo` to `hi` into consecutive ranges. */
  predicate Tiled(subs: seq<Subsector>, s0: nat, s1: nat, lo: nat, hi: nat)
    requires s0 <= s1 <= |subs|
    decreases s1 - s0
  {
    if s0 == s1 then lo == hi
    else subs[s0].first == lo && Tiled(subs, s0 + 1, s1, lo + subs[s0].num, hi)
  }

  lemma {:induction false} TiledJoin(subs: seq<Subsector>, s0: nat, s1: nat, s2: nat, lo: nat, mid: nat, hi: nat)
    requires s0 <= s1 <= s2 <= |subs| && Tiled(subs, s0, s1, lo, mid) && Tiled(subs, s1, s2, mid, hi)
    ensures Tiled(subs, s0, s2, lo, hi)
    decreases s1 - s0
  {
    if s0 < s1 { TiledJoin(subs, s0 + 1, s1, s2, lo + subs[s0].num, mid, hi); }
  }

  lemma {:induction false} TiledGrows(subs: seq<Subsector>, subs': seq<Subsector>, s0: nat, s1: nat, lo: nat, hi: nat)
    requires s0 <= s1 <= |subs| && subs <= subs' && Tiled(subs, s0, s1, lo, hi)
    ensures Tiled(subs', s0, s1, lo, hi)
    decreases s1 - s0
  {
    if s0 < s1 { TiledGrows(subs, subs', s0 + 1, s1, lo + subs[s0].num, hi); }
  }

  /** Each range lies between the two ends. */
  lemma {:induction false} TiledWithin(subs: seq<Subsector>, s0: nat, s1: nat, lo: nat, hi: nat, s: nat)
    requires s0 <= s < s1 <= |subs| && Tiled(subs, s0, s1, lo, hi)
    ensures lo <= subs[s].first && subs[s].first + subs[s].num <= hi
    decreases s1 - s0
  {
    TiledOrder(subs, s0 + 1, s1, lo + subs[s0].num, hi);
    if s0 < s { TiledWithin(subs, s0 + 1, s1, lo + subs[s0].num, hi, s); }
  }

  lemma {:induction false} TiledOrder(subs: seq<Subsector>, s0: nat, s1: nat, lo: nat, hi: nat)
    requires s0 <= s1 <= |subs| && Tiled(subs, s0, s1, lo, hi)
    ensures lo <= hi
    decreases s1 - s0
  {
    if s0 < s1 { TiledOrder(subs, s0 + 1, s1, lo + subs[s0].num, hi); }
  }

  // ---- chains of pieces

  /** The final segs with these numbers lead from one end of g to the other and belong where g belongs. */
  ghost predicate ChainOf(finals: seq<Seg>, c: seq<nat>, g: Seg) {
    && |c| > 0 && (forall j :: 0 <= j < |c| ==> PieceOf(finals, c[j], g))
    && finals[c[0]].v1 == g.v1 && finals[c[|c| - 1]].v2 == g.v2
    && forall j, k :: 0 <= j < k < |c| && k == j + 1 ==> finals[c[j]].v2 == finals[c[k]].v1
  }

  predicate PieceOf(finals: seq<Seg>, f: nat, g: Seg) { f < |finals| && Owner(finals[f]) == Owner(g) }

  lemma ChainJoin(finals: seq<Seg>, c: seq<nat>, d: seq<nat>, g: Seg, a: Seg, b: Seg)
    requires ChainOf(finals, c, a) && ChainOf(finals, d, b) && Owner(a) == Owner(b) == Owner(g)
    requires a.v1 == g.v1 && a.v2 == b.v1 && b.v2 == g.v2
    ensures ChainOf(finals, c + d, g)
  {
    var e := c + d;
    forall j | 0 <= j < |e| ensures PieceOf(finals, e[j], g) {
      if j < |c| { assert PieceOf(finals, c[j], a); } else { assert PieceOf(finals, d[j - |c|], b); }
    }
  }

  lemma ChainGrows(finals: seq<Seg>, finals': seq<Seg>, c: seq<nat>, g: Seg)
    requires finals <= finals' && ChainOf(finals, c, g)
    ensures ChainOf(finals', c, g)
  {
    forall j | 0 <= j < |c| ensures PieceOf(finals', c[j], g) && finals'[c[j]] == finals[c[j]] { assert PieceOf(finals, c[j], g); }
  }

  /** The final segs with these numbers are the consecutive stretches of g between the fractions t, from 0 to 1: they
      run along g in its own direction, and together they are g. */
  ghost predicate RunsAlong(b: Bsp, c: seq<nat>, g: Seg, t: seq<real>) {
    && Indexed(b, g) && |t| == |c| + 1 && t[0] == 0.0 && t[|c|] == 1.0
    && forall j, k :: 0 <= j < k < |t| && k == j + 1 ==> Stretch(b, c[j], g, t[j], t[k])
  }

  predicate Stretch(b: Bsp, f: nat, g: Seg, u: real, v: real)
    requires Indexed(b, g)
  {
    && f < |b.finals| && Indexed(b, b.finals[f]) && u < v
    && b.points[b.finals[f].v1] == Along(b.points[g.v1], b.points[g.v2], u)
    && b.points[b.finals[f].v2] == Along(b.points[g.v1], b.points[g.v2], v)
  }

  ghost predicate Runs(b: Bsp, c: seq<nat>, g: Seg) { exists t: seq<real> :: RunsAlong(b, c, g, t) }

  /** The point u line directions away from a. */
  function At(a: Point, l: Line, u: real): Point { Point(a.x + u * l.dx, a.y + u * l.dy) }

  predicate Leg(b: Bsp, f: nat, a: Point, l: Line, u: real, v: real) {
    && f < |b.finals| && Indexed(b, b.finals[f]) && u < v
    && b.points[b.finals[f].v1] == At(a, l, u) && b.points[b.finals[f].v2] == At(a, l, v)
  }

  lemma NextLeg(b: Bsp, f: nat, g: Seg, a: Point, u: real) returns (v: real)
    requires BspOk(b) && PieceOf(b.finals, f, g) && Indexed(b, g) && b.finals[f].v1 < |b.points|
    requires b.points[b.finals[f].v1] == At(a, Carrier(b, g), u)
    ensures Leg(b, f, a, Carrier(b, g), u, v)
  {
    var h, l := b.finals[f], Carrier(b, g);
    assert SegOk(b, h) && Carrier(b, h) == l;
    var scale: real :| Part(b.points[h.v1], b.points[h.v2], l, scale);
    v := u + scale;
    assert v * l.dx == u * l.dx + scale * l.dx && v * l.dy == u * l.dy + scale * l.dy;
  }

  lemma AtStart(a: Point, l: Line)
    ensures At(a, l, 0.0) == a
  {
  }

  /** The first n pieces of a chain run in the direction of its line. */
  lemma {:induction false} ChainLegs(b: Bsp, c: seq<nat>, g: Seg, n: nat) returns (u: seq<real>)
    requires BspOk(b) && ChainOf(b.finals, c, g) && Indexed(b, g) && 1 <= n <= |c|
    ensures |u| == n + 1 && u[0] == 0.0 && u[n] > 0.0
    ensures forall j, k :: 0 <= j < k <= n && k == j + 1 ==> Leg(b, c[j], b.points[g.v1], Carrier(b, g), u[j], u[k])
  {
    hide BspOk, Carrier, LinedefOk, At;
    var a, l := b.points[g.v1], Carrier(b, g);
    assert PieceOf(b.finals, c[n - 1], g);
    if n == 1 {
      AtStart(a, l);
      var v := NextLeg(b, c[0], g, a, 0.0);
      u := [0.0, v];
    } else {
      var w := ChainLegs(b, c, g, n - 1);
      assert Leg(b, c[n - 2], a, l, w[n - 2], w[n - 1]);
      assert b.finals[c[n - 2]].v2 == b.finals[c[n - 1]].v1;
      var v := NextLeg(b, c[n - 1], g, a, w[n - 1]);
      u := w + [v];
    }
  }

  lemma LegStretch(b: Bsp, f: nat, g: Seg, u: real, v: real, all: real)
    requires Indexed(b, g) && all > 0.0 && b.points[g.v2] == At(b.points[g.v1], Carrier(b, g), all)
    requires Leg(b, f, b.points[g.v1], Carrier(b, g), u, v)
    ensures Stretch(b, f, g, u / all, v / all)
  {
    hide Carrier, LinedefOk;
    FractionOf(b.points[g.v1], Carrier(b, g), u, all);
    FractionOf(b.points[g.v1], Carrier(b, g), v, all);
    Ratio(u, v, all);
  }

  lemma Ratio(u: real, v: real, all: real)
    requires all > 0.0 && u < v
    ensures u / all < v / all
  {
    var p, q := u / all, v / all;
    assert p * all == u && q * all == v;
    if p >= q { Product(p - q, all); }
  }

  lemma FractionOf(a: Point, l: Line, u: real, all: real)
    requires all > 0.0
    ensures Along(a, At(a, l, all), u / all) == At(a, l, u)
  {
    var z, p := At(a, l, all), u / all;
    Rescale(a.x, z.x, l.dx, u, all, p);
    Rescale(a.y, z.y, l.dy, u, all, p);
  }

  lemma Rescale(x: real, z: real, d: real, u: real, all: real, p: real)
    requires all > 0.0 && z == x + all * d && p == u / all
    ensures x + p * (z - x) == x + u * d
  {
    assert p * all == u;
    assert z - x == all * d;
    assert p * (all * d) == (p * all) * d;
  }

  /** A chain of pieces for a seg runs along it from end to end. */
  lemma ChainRuns(b: Bsp, c: seq<nat>, g: Seg)
    requires BspOk(b) && ChainOf(b.finals, c, g) && Indexed(b, g)
    ensures Runs(b, c, g)
  {
    hide BspOk, Carrier, LinedefOk, Stretch, At;
    var n := |c|;
    var u := ChainLegs(b, c, g, n);
    assert Leg(b, c[n - 1], b.points[g.v1], Carrier(b, g), u[n - 1], u[n]);
    var t: seq<real> := seq(n + 1, j requires 0 <= j < n + 1 => u[j] / u[n]);
    forall j, k | 0 <= j < k < |t| && k == j + 1 ensures Stretch(b, c[j], g, t[j], t[k]) {
      LegStretch(b, c[j], g, u[j], u[k], u[n]);
    }
    assert t[0] == 0.0 && t[n] == 1.0 by { Ends(u[0], u[n]); }
    RunsBy(b, c, g, t);
  }

  lemma RunsBy(b: Bsp, c: seq<nat>, g: Seg, t: seq<real>)
    requires RunsAlong(b, c, g, t)
    ensures Runs(b, c, g)
  {
  }

  lemma Ends(u: real, all: real)
    requires u == 0.0 && all > 0.0
    ensures u / all == 0.0 && all / all == 1.0
  {
  }

  function Flat(cs: seq<seq<nat>>): seq<nat> {
    if cs == [] then [] else Flat(cs[..|cs| - 1]) + cs[|cs| - 1]
  }

  /** One chain for each seg of S, and each final seg from `lo` to `hi` in exactly one place of one chain. */
  ghost predicate ChainsOk(finals: seq<Seg>, segs: seq<Seg>, S: seq<nat>, cs: seq<seq<nat>>, lo: nat, hi: nat)
    requires lo <= hi
  {
    && |cs| == |S|
    && (forall i :: 0 <= i < |S| ==> S[i] < |segs| && ChainOf(finals, cs[i], segs[S[i]]))
    && multiset(Flat(cs)) == multiset(Range(lo, hi))
  }

  // ---- what building a tree for the segs S promises

  ghost predicate Built(b: Bsp, S: seq<nat>, b': Bsp, child: nat, t: Tree, cs: seq<seq<nat>>) {
    && Grows(b, b') && BspOk(b) && BspOk(b') && Valid(b, S)
    && Represents(b'.subs, b'.nodes, child, t)
    && Subs(t) == Range(|b.subs|, |b'.subs|) && Nodes(t) == Range(|b.nodes|, |b'.nodes|)
    && Tiled(b'.subs, |b.subs|, |b'.subs|, |b.finals|, |b'.finals|)
    && ChainsOk(b'.finals, b.segs, S, cs, |b.finals|, |b'.finals|)
    && (forall l :: OnRight(b, S, l) ==> FinalsRight(b', |b.finals|, |b'.finals|, l))
    && Separated(b', t)
  }

  // ---- growth keeps what is there

  lemma SegGrows(b: Bsp, b': Bsp, g: Seg)
    requires Grows(b, b') && Indexed(b, g)
    ensures Indexed(b', g) && Carrier(b', g) == Carrier(b, g) && b'.points[g.v1] == b.points[g.v1] && b'.points[g.v2] == b.points[g.v2]
    ensures SegOk(b, g) ==> SegOk(b', g)
  {
    assert LinedefOk(b', g.linedef);
    if SegOk(b, g) {
      var scale: real :| Part(b.points[g.v1], b.points[g.v2], Carrier(b, g), scale);
      assert Part(b'.points[g.v1], b'.points[g.v2], Carrier(b', g), scale);
    }
  }

  lemma OnRightGrows(b: Bsp, b': Bsp, S: seq<nat>, l: Line)
    requires Grows(b, b') && BspOk(b) && BspOk(b') && Valid(b, S)
    ensures Valid(b', S) && (OnRight(b', S, l) <==> OnRight(b, S, l))
  {
    hide Side, Part;
    forall i | 0 <= i < |S| ensures S[i] < |b'.segs| && (SegRight(b', b'.segs[S[i]], l) <==> SegRight(b, b.segs[S[i]], l)) {
      assert b'.segs[S[i]] == b.segs[S[i]] && SegOk(b, b.segs[S[i]]);
      SegGrows(b, b', b.segs[S[i]]);
    }
  }

  lemma SubRightGrows(b: Bsp, b': Bsp, s: nat, l: Line)
    requires Grows(b, b') && SubRight(b, s, l)
    ensures SubRight(b', s, l)
  {
    hide Side, SegOk;
    assert b'.subs[s] == b.subs[s];
    forall f | b'.subs[s].first <= f < b'.subs[s].first + b'.subs[s].num ensures Indexed(b', b'.finals[f]) && SegRight(b', b'.finals[f], l) {
      assert b'.finals[f] == b.finals[f];
      SegGrows(b, b', b.finals[f]);
    }
  }

  lemma {:induction false} TreeGrows(b: Bsp, b': Bsp, child: nat, t: Tree)
    requires Grows(b, b')
    ensures Represents(b.subs, b.nodes, child, t) ==> Represents(b'.subs, b'.nodes, child, t)
    ensures Separated(b, t) ==> Separated(b', t)
    decreases t
  {
    hide SubRight;
    if t.Inner? {
      var i := t.idx;
      if i < |b.nodes| {
        assert b'.nodes[i] == b.nodes[i];
        TreeGrows(b, b', b.nodes[i].right, t.right);
        TreeGrows(b, b', b.nodes[i].left, t.left);
        if Separated(b, t) {
          forall k | 0 <= k < |Subs(t.right)| ensures SubRight(b', Subs(t.right)[k], b.nodes[i].line) {
            SubRightGrows(b, b', Subs(t.right)[k], b.nodes[i].line);
          }
          forall k | 0 <= k < |Subs(t.left)| ensures SubRight(b', Subs(t.left)[k], Reverse(b.nodes[i].line)) {
            SubRightGrows(b, b', Subs(t.left)[k], Reverse(b.nodes[i].line));
          }
        }
      }
    }
  }

  /** In a tree numbered this way every node's children that are nodes have smaller numbers. */
  lemma ChildrenBelow(t: Tree, lo: nat, hi: nat)
    requires t.Inner? && lo <= hi && Nodes(t) == Range(lo, hi)
    ensures t.idx == hi - 1 && (t.right.Inner? ==> t.right.idx < t.idx) && (t.left.Inner? ==> t.left.idx < t.idx)
  {
    var n := Nodes(t);
    assert n[|n| - 1] == t.idx;
    if t.right.Inner? {
      var r := Nodes(t.right);
      assert r[|r| - 1] == t.right.idx && n[|r| - 1] == r[|r| - 1];
    }
    if t.left.Inner? {
      var l := Nodes(t.left);
      assert l[|l| - 1] == t.left.idx && n[|n| - 2] == l[|l| - 1];
    }
  }
}
