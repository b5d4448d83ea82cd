/** engine3d/bsp.c: front-to-back traversal of a loaded tree, for trees of the shape the builder writes. */
module BspTraverse {
  import opened Base
  import T = BspTree
  import opened G = BspGeometry

  const HALF32: int := 0x8000_0000
  const HALF64: int := 0x8000_0000_0000_0000

  /** 16.16 fixed point in 32 bits, and 64-bit products, both wrapping. */
  type fixed = x: int | -0x8000_0000 <= x < 0x8000_0000

  function Wrap64(x: int): int { (x + HALF64) % (2 * HALF64) - HALF64 }

  datatype FileNode = FileNode(x: fixed, y: fixed, dx: fixed, dy: fixed, right: nat, left: nat)

  datatype Level = Level(numSubsectors: nat, nodes: seq<FileNode>, root: nat)

  /** The side test of bsp_traverse_node. */
  function CrossAt(n: FileNode, camX: fixed, camY: fixed): int {
    Wrap64(Int32(camX - n.x) * n.dy - Int32(camY - n.y) * n.dx)
  }

  predicate RightFirst(n: FileNode, camX: fixed, camY: fixed) { CrossAt(n, camX, camY) >= 0 }

  /** The child number stands for the tree, as 16-bit numbers with the subsector flag. */
  predicate Shape(level: Level, idx: nat, t: T.Tree)
    decreases t
  {
    match t
    case Leaf(s) => s < level.numSubsectors && s < T.SUBSECTOR_FLAG && idx == s + T.SUBSECTOR_FLAG
    case Inner(i, r, l) =>
      i < |level.nodes| && i < T.SUBSECTOR_FLAG && idx == i && Shape(level, level.nodes[i].right, r) && Shape(level, level.nodes[i].left, l)
  }

  /** The order in which subsectors are visited: at each node the camera's side first. */
  function Order(level: Level, t: T.Tree, camX: fixed, camY: fixed): seq<nat>
    requires exists idx :: Shape(level, idx, t)
    decreases t
  {
    match t
    case Leaf(s) => [s]
    case Inner(i, r, l) =>
      ShapeParts(level, t);
      if RightFirst(level.nodes[i], camX, camY) then Order(level, r, camX, camY) + Order(level, l, camX, camY)
      else Order(level, l, camX, camY) + Order(level, r, camX, camY)
  }

  lemma ShapeParts(level: Level, t: T.Tree)
    requires (exists idx :: Shape(level, idx, t)) && t.Inner?
    ensures t.idx < |level.nodes| && Shape(level, level.nodes[t.idx].right, t.right) && Shape(level, level.nodes[t.idx].left, t.left)
  {
  }

  // ---- any level

  /** Child numbers have 16 bits. */
  predicate Loaded(level: Level) {
    level.root < 0x1_0000 && forall i :: 0 <= i < |level.nodes| ==> level.nodes[i].right < 0x1_0000 && level.nodes[i].left < 0x1_0000
  }

  /** From this child number on the traversal goes no deeper than so many nodes. */
  predicate Ends(level: Level, idx: nat, depth: nat)
    decreases depth
  {
    idx >= |level.nodes| || idx >= T.SUBSECTOR_FLAG ||
    (depth > 0 && Ends(level, level.nodes[idx].right, depth - 1) && Ends(level, level.nodes[idx].left, depth - 1))
  }

  /** The subsectors visited from there; numbers that stand for nothing are passed over. */
  function Visits(level: Level, idx: nat, camX: fixed, camY: fixed, depth: nat): (v: seq<nat>)
    requires Ends(level, idx, depth)
    ensures forall i :: 0 <= i < |v| ==> v[i] < level.numSubsectors
    decreases depth
  {
    if idx >= T.SUBSECTOR_FLAG then if idx - T.SUBSECTOR_FLAG < level.numSubsectors then [idx - T.SUBSECTOR_FLAG] else []
    else if idx >= |level.nodes| then []
    else
      var n := level.nodes[idx];
      var r, l := Visits(level, n.right, camX, camY, depth - 1), Visits(level, n.left, camX, camY, depth - 1);
      if RightFirst(n, camX, camY) then r + l else l + r
  }

  /** bsp_traverse_node; the visits are those of the callback. */
  method TraverseNode(level: Level, idx: nat, camX: fixed, camY: fixed, ghost depth: nat) returns (visits: seq<nat>)
    requires idx < 0x1_0000 && Loaded(level) && Ends(level, idx, depth)
    ensures visits == Visits(level, idx, camX, camY, depth)
    decreases depth
  {
    visits := [];
    if idx >= T.SUBSECTOR_FLAG {
      var ss := idx - T.SUBSECTOR_FLAG;
      if ss < level.numSubsectors { visits := [ss]; }
      return;
    }
    if idx >= |level.nodes| { return; }
    var node := level.nodes[idx];
    var near, far;
    if CrossAt(node, camX, camY) >= 0 {
      near := TraverseNode(level, node.right, camX, camY, depth - 1);
      far := TraverseNode(level, node.left, camX, camY, depth - 1);
    } else {
      near := TraverseNode(level, node.left, camX, camY, depth - 1);
      far := TraverseNode(level, node.right, camX, camY, depth - 1);
    }
    visits := near + far;
  }

  /** bsp_traverse: with no nodes at all the subsectors in their order. */
  method Traverse(level: Level, camX: fixed, camY: fixed, ghost depth: nat) returns (visits: seq<nat>)
    requires Loaded(level) && Ends(level, level.root, depth)
    ensures visits == if level.nodes == [] then T.Range(0, level.numSubsectors) else Visits(level, level.root, camX, camY, depth)
  {
    if |level.nodes| == 0 {
      visits := [];
      var i := 0;
      while i < level.numSubsectors
        invariant i <= level.numSubsectors && visits == T.Range(0, i)
      {
        visits := visits + [i];
        i := i + 1;
      }
      return;
    }
    visits := TraverseNode(level, level.root, camX, camY, depth);
  }

  /** The traversal ends when every child node has a number below its parent, as the builder numbers them. */
  lemma {:induction false} DownwardEnds(level: Level, idx: nat)
    requires forall i :: 0 <= i < |level.nodes| ==> Lower(level, level.nodes[i].right, i) && Lower(level, level.nodes[i].left, i)
    ensures Ends(level, idx, idx + 1)
    decreases idx
  {
    if idx < |level.nodes| && idx < T.SUBSECTOR_FLAG {
      var n := level.nodes[idx];
      assert Lower(level, n.right, idx) && Lower(level, n.left, idx);
      LowerEnds(level, n.right, idx);
      LowerEnds(level, n.left, idx);
    }
  }

  predicate Lower(level: Level, child: nat, i: nat) { child < i || child >= |level.nodes| || child >= T.SUBSECTOR_FLAG }

  lemma {:induction false} LowerEnds(level: Level, child: nat, idx: nat)
    requires forall i :: 0 <= i < |level.nodes| ==> Lower(level, level.nodes[i].right, i) && Lower(level, level.nodes[i].left, i)
    requires Lower(level, child, idx)
    ensures Ends(level, child, idx)
    decreases idx, 0
  {
    if child < idx {
      DownwardEnds(level, child);
      MoreDepth(level, child, child + 1, idx);
    }
  }

  lemma {:induction false} MoreDepth(level: Level, idx: nat, d: nat, e: nat)
    requires Ends(level, idx, d) && d <= e
    ensures Ends(level, idx, e)
    decreases d
  {
    if idx < |level.nodes| && idx < T.SUBSECTOR_FLAG {
      MoreDepth(level, level.nodes[idx].right, d - 1, e - 1);
      MoreDepth(level, level.nodes[idx].left, d - 1, e - 1);
    }
  }

  function Height(t: T.Tree): nat { match t case Leaf(_) => 0 case Inner(_, r, l) => 1 + Max(Height(r), Height(l)) }

  /** On a tree of the builder's shape it ends, and visits in the order of the tree. */
  lemma {:induction false} ShapeVisits(level: Level, idx: nat, t: T.Tree, camX: fixed, camY: fixed, depth: nat)
    requires Shape(level, idx, t) && depth >= Height(t)
    ensures Ends(level, idx, depth) && Visits(level, idx, camX, camY, depth) == Order(level, t, camX, camY)
    decreases t
  {
    hide RightFirst;
    if t.Inner? {
      ShapeVisits(level, level.nodes[t.idx].right, t.right, camX, camY, depth - 1);
      ShapeVisits(level, level.nodes[t.idx].left, t.left, camX, camY, depth - 1);
    }
  }

  /** Every subsector of the tree is visited exactly once. */
  lemma {:induction false} EachOnce(level: Level, t: T.Tree, camX: fixed, camY: fixed)
    requires exists idx :: Shape(level, idx, t)
    ensures multiset(Order(level, t, camX, camY)) == multiset(T.Subs(t))
    decreases t
  {
    if t.Inner? {
      ShapeParts(level, t);
      EachOnce(level, t.right, camX, camY);
      EachOnce(level, t.left, camX, camY);
    }
  }

  // ---- front to back

  predicate Within(u: T.Tree, t: T.Tree) {
    u == t || (t.Inner? && (Within(u, t.right) || Within(u, t.left)))
  }

  predicate Distinct(s: seq<nat>) { forall i, j :: 0 <= i < j < |s| ==> s[i] != s[j] }

  /** Everything of A comes before everything of B. */
  predicate Precedes(o: seq<nat>, A: seq<nat>, B: seq<nat>) {
    forall i, j :: 0 <= i < |o| && 0 <= j < |o| && o[i] in A && o[j] in B ==> i < j
  }

  lemma OrderHas(level: Level, t: T.Tree, camX: fixed, camY: fixed, s: nat)
    requires exists idx :: Shape(level, idx, t)
    ensures s in Order(level, t, camX, camY) <==> s in T.Subs(t)
  {
    EachOnce(level, t, camX, camY);
    assert s in multiset(Order(level, t, camX, camY)) <==> s in multiset(T.Subs(t));
  }

  lemma DistinctParts(a: seq<nat>, b: seq<nat>)
    requires Distinct(a + b)
    ensures Distinct(a) && Distinct(b) && forall s :: s in a ==> s !in b
  {
    var c := a + b;
    forall i, j | 0 <= i < j < |a| ensures a[i] != a[j] { assert c[i] != c[j]; }
    forall i, j | 0 <= i < j < |b| ensures b[i] != b[j] { assert c[|a| + i] != c[|a| + j]; }
    forall s | s in a ensures s !in b {
      var i :| 0 <= i < |a| && a[i] == s;
      forall j | 0 <= j < |b| ensures b[j] != s { assert c[i] != c[|a| + j]; }
    }
  }

  lemma {:induction false} WithinHas(u: T.Tree, t: T.Tree)
    requires Within(u, t)
    ensures forall s :: s in T.Subs(u) ==> s in T.Subs(t)
    decreases t
  {
    if u != t {
      if Within(u, t.right) { WithinHas(u, t.right); } else { WithinHas(u, t.left); }
    }
  }

  /** An order inside one part holds in the whole, when the other part has none of the elements. */
  lemma PrecedesJoin(a: seq<nat>, b: seq<nat>, A: seq<nat>, B: seq<nat>, first: bool)
    requires Precedes(if first then a else b, A, B)
    requires forall s :: s in (if first then b else a) ==> s !in A && s !in B
    ensures Precedes(a + b, A, B)
  {
    var c := a + b;
    forall i, j | 0 <= i < |c| && 0 <= j < |c| && c[i] in A && c[j] in B ensures i < j {
      assert i < |a| ==> a[i] == c[i];
      assert i >= |a| ==> b[i - |a|] == c[i];
      assert j < |a| ==> a[j] == c[j];
      assert j >= |a| ==> b[j - |a|] == c[j];
    }
  }

  lemma Locate(a: seq<nat>, b: seq<nat>, i: nat)
    requires i < |a + b|
    ensures if i < |a| then (a + b)[i] in a else (a + b)[i] in b
  {
  }

  lemma PrecedesSplit(a: seq<nat>, b: seq<nat>, A: seq<nat>, B: seq<nat>)
    requires (forall s :: s in a ==> s !in B) && (forall s :: s in b ==> s !in A)
    ensures Precedes(a + b, A, B)
  {
    var c := a + b;
    forall i, j | 0 <= i < |c| && 0 <= j < |c| && c[i] in A && c[j] in B ensures i < j {
      Locate(a, b, i);
      Locate(a, b, j);
    }
  }

  /** The node's two sides come near side first. */
  predicate FrontFirst(level: Level, o: seq<nat>, u: T.Tree, camX: fixed, camY: fixed)
    requires u.Inner?
  {
    u.idx < |level.nodes| &&
    if RightFirst(level.nodes[u.idx], camX, camY) then Precedes(o, T.Subs(u.right), T.Subs(u.left))
    else Precedes(o, T.Subs(u.left), T.Subs(u.right))
  }

  /** At each node of the tree all subsectors on the camera's side come before all on the other side. */
  lemma {:induction false} NearFirst(level: Level, t: T.Tree, u: T.Tree, camX: fixed, camY: fixed)
    requires (exists idx :: Shape(level, idx, t)) && Distinct(T.Subs(t)) && Within(u, t) && u.Inner?
    ensures FrontFirst(level, Order(level, t, camX, camY), u, camX, camY)
    decreases t
  {
    hide RightFirst, Precedes, Distinct;
    ShapeParts(level, t);
    DistinctParts(T.Subs(t.right), T.Subs(t.left));
    var first := RightFirst(level.nodes[t.idx], camX, camY);
    var r, l := Order(level, t.right, camX, camY), Order(level, t.left, camX, camY);
    forall s ensures (s in r <==> s in T.Subs(t.right)) && (s in l <==> s in T.Subs(t.left)) {
      OrderHas(level, t.right, camX, camY, s);
      OrderHas(level, t.left, camX, camY, s);
    }
    if u == t {
      if first { PrecedesSplit(r, l, T.Subs(t.right), T.Subs(t.left)); } else { PrecedesSplit(l, r, T.Subs(t.left), T.Subs(t.right)); }
    } else {
      var inRight := Within(u, t.right);
      var v := if inRight then t.right else t.left;
      NearFirst(level, v, u, camX, camY);
      WithinHas(u, v);
      var near, far := if RightFirst(level.nodes[u.idx], camX, camY) then T.Subs(u.right) else T.Subs(u.left),
                       if RightFirst(level.nodes[u.idx], camX, camY) then T.Subs(u.left) else T.Subs(u.right);
      PrecedesJoin(if first then r else l, if first then l else r, near, far, first == inRight);
    }
  }

  lemma WrapSmall(x: int)
    ensures -HALF32 <= x < HALF32 ==> Int32(x) == x
    ensures -HALF64 <= x < HALF64 ==> Wrap64(x) == x
  {
  }

  lemma ProductBound(a: int, b: int)
    requires -HALF32 <= a < HALF32 && -HALF32 <= b < HALF32
    ensures -HALF32 * (HALF32 - 1) <= a * b <= HALF32 * HALF32
  {
    if a >= 0 {
      if b >= 0 { Between(a, b, HALF32 - 1); } else { Between(a, -b, HALF32); }
    } else {
      if b >= 0 { Between(b, -a, HALF32); } else { Between(-a, -b, HALF32); }
    }
  }

  lemma Between(a: int, b: int, n: int)
    requires 0 <= a <= HALF32 && 0 <= b <= n <= HALF32
    ensures 0 <= a * b <= a * n <= HALF32 * n && a * -b == -(a * b) && -a * b == -(a * b) && -a * -b == a * b
  {
    Mul(a, b);
    Mul(a, n - b);
    Mul(HALF32 - a, n);
  }

  lemma Mul(a: int, b: int)
    requires a >= 0 && b >= 0
    ensures a * b >= 0
  {
  }

  /** The camera is so near to the node's point that neither coordinate difference wraps. */
  predicate NoWrap(n: FileNode, camX: fixed, camY: fixed) {
    -HALF32 <= camX - n.x < HALF32 && -HALF32 <= camY - n.y < HALF32
  }

  /** The exact side of the camera, as the builder sees it. */
  predicate OnRightOf(n: FileNode, camX: fixed, camY: fixed) { (camX - n.x) * n.dy - (camY - n.y) * n.dx >= 0 }

  lemma CameraSide(n: FileNode, camX: fixed, camY: fixed)
    requires NoWrap(n, camX, camY)
    ensures RightFirst(n, camX, camY) <==> OnRightOf(n, camX, camY)
  {
    var a, b := camX - n.x, camY - n.y;
    WrapSmall(a);
    WrapSmall(b);
    ProductBound(a, n.dy);
    ProductBound(b, n.dx);
    WrapSmall(a * n.dy - b * n.dx);
  }

  /** A difference that wraps has the wrong sign. */
  lemma WrapSign(x: int)
    requires -2 * HALF32 < x < 2 * HALF32
    ensures (Int32(x) >= 0 <==> x >= 0) <==> -HALF32 <= x < HALF32
    ensures -HALF32 <= Int32(x) < HALF32
  {
  }

  lemma UpAndAcross(n: FileNode, camX: fixed, camY: fixed)
    ensures var up, across := n.(dx := 0, dy := 1), n.(dx := -1, dy := 0);
      && (RightFirst(up, camX, camY) <==> Int32(camX - n.x) >= 0) && (OnRightOf(up, camX, camY) <==> camX - n.x >= 0)
      && (RightFirst(across, camX, camY) <==> Int32(camY - n.y) >= 0) && (OnRightOf(across, camX, camY) <==> camY - n.y >= 0)
  {
    WrapSign(camX - n.x);
    WrapSign(camY - n.y);
    var a, b := Int32(camX - n.x), Int32(camY - n.y);
    assert a * 1 - b * 0 == a && a * 0 - b * -1 == b;
    WrapSmall(a);
    WrapSmall(b);
  }

  /** The side test is exact for a camera and every line through a point if and only if neither difference wraps. */
  lemma CameraSideIff(n: FileNode, camX: fixed, camY: fixed)
    ensures (forall dx: fixed, dy: fixed ::
               RightFirst(n.(dx := dx, dy := dy), camX, camY) <==> OnRightOf(n.(dx := dx, dy := dy), camX, camY))
            <==> NoWrap(n, camX, camY)
  {
    hide RightFirst, OnRightOf;
    if NoWrap(n, camX, camY) {
      forall dx: fixed, dy: fixed
        ensures RightFirst(n.(dx := dx, dy := dy), camX, camY) <==> OnRightOf(n.(dx := dx, dy := dy), camX, camY)
      {
        CameraSide(n.(dx := dx, dy := dy), camX, camY);
      }
    } else {
      UpAndAcross(n, camX, camY);
      WrapSign(camX - n.x);
      WrapSign(camY - n.y);
      var up, across := n.(dx := 0, dy := 1), n.(dx := -1, dy := 0);
      assert !(RightFirst(up, camX, camY) <==> OnRightOf(up, camX, camY)) || !(RightFirst(across, camX, camY) <==> OnRightOf(across, camX, camY));
    }
  }

  /** This camera is on the right and the test says left. */
  lemma FarCamera()
    ensures var n := FileNode(-1, 0, 0, 1, 0, 0); OnRightOf(n, 0x7FFF_FFFF, 0) && !RightFirst(n, 0x7FFF_FFFF, 0)
  {
    var n := FileNode(-1, 0, 0, 1, 0, 0);
    UpAndAcross(n, 0x7FFF_FFFF, 0);
    assert n.(dx := 0, dy := 1) == n;
    WrapSign(0x8000_0000);
  }

  // ---- what the builder writes has this shape

  /** Python's int: truncation toward zero. */
  function Truncated(v: real): int { if v >= 0.0 then v.Floor else -((-v).Floor) }

  const FP_ONE: real := 65536.0

  /** to_fixed_signed */
  function ToFixed(v: real): fixed {
    var t := Truncated(v * FP_ONE);
    if t > 0x7FFF_FFFF then 0x7FFF_FFFF else if t < -HALF32 then -HALF32 else t
  }

  function FileNodeOf(n: T.Node): FileNode {
    FileNode(ToFixed(n.line.x), ToFixed(n.line.y), ToFixed(n.line.dx), ToFixed(n.line.dy), n.right % 0x1_0000, n.left % 0x1_0000)
  }

  /** write_bsp, as far as the traversal reads it: coordinates in fixed point, children cut to 16 bits. */
  function Written(b: T.Bsp, root: nat): Level {
    Level(|b.subs|, seq(|b.nodes|, i requires 0 <= i < |b.nodes| => FileNodeOf(b.nodes[i])), root % 0x1_0000)
  }

  lemma FlaggedSmall(s: nat)
    requires s < T.SUBSECTOR_FLAG
    ensures T.Flagged(s) == s + T.SUBSECTOR_FLAG < 0x1_0000
  {
  }

  lemma {:induction false} WrittenShape(b: T.Bsp, root: nat, child: nat, t: T.Tree)
    requires |b.nodes| <= T.SUBSECTOR_FLAG && |b.subs| <= T.SUBSECTOR_FLAG && T.Represents(b.subs, b.nodes, child, t)
    ensures child < 0x1_0000 && Shape(Written(b, root), child, t)
    decreases t
  {
    hide ToFixed;
    match t
    case Leaf(s) => FlaggedSmall(s);
    case Inner(i, r, l) =>
      WrittenShape(b, root, b.nodes[i].right, r);
      WrittenShape(b, root, b.nodes[i].left, l);
  }

  lemma WrittenLoaded(b: T.Bsp, root: nat)
    ensures Loaded(Written(b, root))
  {
    hide ToFixed;
  }

  lemma RangeDistinct(n: nat)
    ensures Distinct(T.Range(0, n))
  {
  }

  /** A tree as the builder makes it, with at most 0x8000 nodes and subsectors, is traversed front to back, every
      subsector once, from every camera. */
  lemma BuiltTraverses(b: T.Bsp, child: nat, t: T.Tree, camX: fixed, camY: fixed)
    requires |b.nodes| <= T.SUBSECTOR_FLAG && |b.subs| <= T.SUBSECTOR_FLAG
    requires T.Represents(b.subs, b.nodes, child, t) && T.Subs(t) == T.Range(0, |b.subs|)
    ensures var level := Written(b, child);
      && level.root == child && Shape(level, level.root, t)
      && multiset(Order(level, t, camX, camY)) == multiset(T.Range(0, |b.subs|))
      && forall u :: Within(u, t) && u.Inner? ==> FrontFirst(level, Order(level, t, camX, camY), u, camX, camY)
  {
    hide RightFirst, Precedes, Distinct, FileNodeOf;
    var level := Written(b, child);
    WrittenShape(b, child, child, t);
    EachOnce(level, t, camX, camY);
    RangeDistinct(|b.subs|);
    forall u | Within(u, t) && u.Inner? ensures FrontFirst(level, Order(level, t, camX, camY), u, camX, camY) {
      NearFirst(level, t, u, camX, camY);
    }
  }

  /** That order is what bsp_traverse visits. */
  lemma BuiltVisits(b: T.Bsp, child: nat, t: T.Tree, camX: fixed, camY: fixed)
    requires |b.nodes| <= T.SUBSECTOR_FLAG && |b.subs| <= T.SUBSECTOR_FLAG && T.Represents(b.subs, b.nodes, child, t)
    ensures var level := Written(b, child);
      && Loaded(level) && level.root == child && Shape(level, child, t) && Ends(level, child, Height(t))
      && Visits(level, child, camX, camY, Height(t)) == Order(level, t, camX, camY)
  {
    hide Loaded, Ends, Visits, FileNodeOf, RightFirst;
    WrittenLoaded(b, child);
    WrittenShape(b, child, child, t);
    ShapeVisits(Written(b, child), child, t, camX, camY, Height(t));
  }

  // ---- the camera's side of the builder's lines

  predicate Exact(v: real) { ToFixed(v) as real == v * FP_ONE }

  /** The line's numbers fit 16.16 fixed point exactly. */
  predicate ExactLine(l: Line) { Exact(l.x) && Exact(l.y) && Exact(l.dx) && Exact(l.dy) }

  /** Where the camera stands. */
  function CameraAt(camX: fixed, camY: fixed): Point { Point(camX as real / FP_ONE, camY as real / FP_ONE) }

  lemma Scaled(u: real, i: int, v: real, j: int)
    requires i as real == u * FP_ONE && j as real == v * FP_ONE
    ensures (i * j) as real == (FP_ONE * FP_ONE) * (u * v)
  {
    RealProduct(i, j);
    assert (u * FP_ONE) * (v * FP_ONE) == (FP_ONE * FP_ONE) * (u * v);
  }

  lemma RealProduct(i: int, j: int)
    ensures (i * j) as real == i as real * j as real
  {
  }

  lemma ScaledDifference(c: int, u: real, n: int)
    requires n as real == u * FP_ONE
    ensures (c - n) as real == (c as real / FP_ONE - u) * FP_ONE
  {
  }

  /** On an exact line the written node has the side of the line itself. */
  lemma ExactSide(n: T.Node, camX: fixed, camY: fixed)
    requires ExactLine(n.line)
    ensures OnRightOf(FileNodeOf(n), camX, camY) <==> Side(CameraAt(camX, camY), n.line) >= 0.0
  {
    hide ToFixed;
    var f, l, p := FileNodeOf(n), n.line, CameraAt(camX, camY);
    ScaledDifference(camX, l.x, f.x);
    ScaledDifference(camY, l.y, f.y);
    Scaled(p.x - l.x, camX - f.x, l.dy, f.dy);
    Scaled(p.y - l.y, camY - f.y, l.dx, f.dx);
    SidesScaled((camX - f.x) * f.dy, (camY - f.y) * f.dx, (p.x - l.x) * l.dy, (p.y - l.y) * l.dx);
  }

  lemma SidesScaled(i: int, j: int, u: real, v: real)
    requires i as real == (FP_ONE * FP_ONE) * u && j as real == (FP_ONE * FP_ONE) * v
    ensures i - j >= 0 <==> u - v >= 0.0
  {
  }

  // ---- and where 16.16 rounds them

  function Abs(v: real): real { if v >= 0.0 then v else -v }

  /** Not clamped by to_fixed_signed. */
  predicate Fits(v: real) { -2147483648.0 <= v * FP_ONE < 2147483648.0 }

  predicate LineFits(l: Line) { Fits(l.x) && Fits(l.y) && Fits(l.dx) && Fits(l.dy) }

  /** The point is far enough from the line for rounding not to change its side: its distance to the line times the length
      of the line's direction is at least so many units of the last place. */
  predicate ClearOf(p: Point, l: Line) {
    Abs(Side(p, l)) * FP_ONE >= Abs(p.x - l.x) + Abs(p.y - l.y) + Abs(l.dx) + Abs(l.dy) + 2.0 / FP_ONE
  }

  lemma Rounding(v: real)
    requires Fits(v)
    ensures Abs(ToFixed(v) as real - v * FP_ONE) < 1.0
  {
  }

  lemma SmallFactor(x: real, e: real)
    requires Abs(e) < 1.0
    ensures Abs(x * e) <= Abs(x)
  {
    if x >= 0.0 {
      Product(x, 1.0 - e);
      Product(x, 1.0 + e);
    } else {
      Product(-x, 1.0 - e);
      Product(-x, 1.0 + e);
    }
  }

  /** Two factors off by less than one each. */
  lemma ProductNear(i: int, j: int, u: real, v: real)
    requires Abs(i as real - u) < 1.0 && Abs(j as real - v) < 1.0
    ensures Abs((i * j) as real - u * v) < Abs(u) + Abs(v) + 1.0
  {
    RealProduct(i, j);
    RealProductNear(i as real, j as real, u, v);
  }

  lemma RealProductNear(x: real, y: real, u: real, v: real)
    requires Abs(x - u) < 1.0 && Abs(y - v) < 1.0
    ensures Abs(x * y - u * v) < Abs(u) + Abs(v) + 1.0
  {
    var d, e := x - u, y - v;
    Expand(u, v, d, e, x, y);
    SmallFactor(u, e);
    SmallFactor(v, d);
    SmallFactor(d, e);
    Together(x * y - u * v, u * e, v * d, d * e, Abs(u), Abs(v));
  }

  lemma Expand(u: real, v: real, d: real, e: real, x: real, y: real)
    requires x == u + d && y == v + e
    ensures x * y - u * v == u * e + v * d + d * e
  {
    assert x * y == x * v + x * e;
    assert x * v == u * v + d * v && x * e == u * e + d * e;
  }

  lemma Together(t: real, a: real, b: real, c: real, g: real, h: real)
    requires t == a + b + c && Abs(a) <= g && Abs(b) <= h && Abs(c) < 1.0
    ensures Abs(t) < g + h + 1.0
  {
  }

  lemma ScaleAbs(x: real)
    ensures Abs(x * FP_ONE) == Abs(x) * FP_ONE
  {
  }

  function Scaled2(x: real): real { x * FP_ONE * FP_ONE }

  lemma ScaleBoth(u: real, v: real, a: real, b: real)
    requires a == u * FP_ONE && b == v * FP_ONE
    ensures a * b == Scaled2(u * v)
  {
    assert a * b == (u * FP_ONE) * b == u * (FP_ONE * b);
    assert u * (v * FP_ONE) == (u * v) * FP_ONE;
  }

  /** The written side of a camera is off by less than the bound of ClearOf. */
  lemma SideNear(n: T.Node, camX: fixed, camY: fixed)
    requires LineFits(n.line)
    ensures var f, l, p := FileNodeOf(n), n.line, CameraAt(camX, camY);
      Abs(IntCross(camX - f.x, camY - f.y, f.dx, f.dy) as real - Scaled2(Side(p, l)))
        < (Abs(p.x - l.x) + Abs(p.y - l.y) + Abs(l.dx) + Abs(l.dy)) * FP_ONE + 2.0
  {
    hide ToFixed, Abs, Fits, Scaled2;
    var f, l, p := FileNodeOf(n), n.line, CameraAt(camX, camY);
    Rounding(l.dx);
    Rounding(l.dy);
    OffsetNear(camX, p.x, l.x);
    OffsetNear(camY, p.y, l.y);
    hide IntCross, Cross2d;
    CrossNear(camX - f.x, camY - f.y, f.dx, f.dy, p.x - l.x, p.y - l.y, l.dx, l.dy);
  }

  function IntCross(i: int, j: int, k: int, m: int): int { i * m - j * k }

  lemma CrossNear(i: int, j: int, k: int, m: int, t: real, u: real, v: real, w: real)
    requires Abs(i as real - t * FP_ONE) < 1.0 && Abs(j as real - u * FP_ONE) < 1.0
    requires Abs(k as real - v * FP_ONE) < 1.0 && Abs(m as real - w * FP_ONE) < 1.0
    ensures Abs(IntCross(i, j, k, m) as real - Scaled2(Cross2d(t, u, v, w))) < (Abs(t) + Abs(u) + Abs(v) + Abs(w)) * FP_ONE + 2.0
  {
    hide Abs, Scaled2;
    TermNear(i, m, t, w);
    TermNear(j, k, u, v);
    DifferencesNear(i * m, j * k, t * w, u * v, (Abs(t) + Abs(w)) * FP_ONE + 1.0, (Abs(u) + Abs(v)) * FP_ONE + 1.0);
  }

  lemma OffsetNear(c: int, q: real, v: real)
    requires Fits(v) && q == c as real / FP_ONE
    ensures Abs((c - ToFixed(v)) as real - (q - v) * FP_ONE) < 1.0
  {
    hide ToFixed;
    Rounding(v);
    assert (q - v) * FP_ONE == c as real - v * FP_ONE;
  }

  lemma TermNear(i: int, j: int, u: real, v: real)
    requires Abs(i as real - u * FP_ONE) < 1.0 && Abs(j as real - v * FP_ONE) < 1.0
    ensures Abs((i * j) as real - Scaled2(u * v)) < (Abs(u) + Abs(v)) * FP_ONE + 1.0
  {
    ScaleAbs(u);
    ScaleAbs(v);
    TermNearScaled(i, j, u, v, u * FP_ONE, v * FP_ONE);
  }

  lemma TermNearScaled(i: int, j: int, u: real, v: real, a: real, b: real)
    requires a == u * FP_ONE && b == v * FP_ONE && Abs(i as real - a) < 1.0 && Abs(j as real - b) < 1.0
    ensures Abs((i * j) as real - Scaled2(u * v)) < Abs(a) + Abs(b) + 1.0
  {
    hide Scaled2, Abs;
    ScaleBoth(u, v, a, b);
    ProductNear(i, j, a, b);
  }

  lemma DifferencesNear(i: int, j: int, u: real, v: real, g: real, h: real)
    requires Abs(i as real - Scaled2(u)) < g && Abs(j as real - Scaled2(v)) < h
    ensures Abs((i - j) as real - Scaled2(u - v)) < g + h
  {
  }

  /** On a line that 16.16 rounds, the written node has the true side of every camera that is clear of it. */
  lemma RoundedSide(n: T.Node, camX: fixed, camY: fixed)
    requires LineFits(n.line) && ClearOf(CameraAt(camX, camY), n.line)
    ensures OnRightOf(FileNodeOf(n), camX, camY) <==> Side(CameraAt(camX, camY), n.line) >= 0.0
  {
    hide ToFixed, Side;
    SideNear(n, camX, camY);
    var l, p := n.line, CameraAt(camX, camY);
    SignStays(Side(p, l), Abs(p.x - l.x) + Abs(p.y - l.y) + Abs(l.dx) + Abs(l.dy));
  }

  lemma SignStays(side: real, sum: real)
    requires Abs(side) * FP_ONE >= sum + 2.0 / FP_ONE
    ensures Abs(Scaled2(side)) >= sum * FP_ONE + 2.0
    ensures Scaled2(side) >= 0.0 <==> side >= 0.0
  {
  }

  /** Half a unit of the last place from its line, this camera is on the left and the written node says right. */
  lemma CloseCamera()
    ensures var n := T.Node(Line(0.5 / FP_ONE, 0.0, 0.0, 1.0), 0, 0); OnRightOf(FileNodeOf(n), 0, 0) && Side(CameraAt(0, 0), n.line) < 0.0
  {
    assert ToFixed(0.5 / FP_ONE) == 0 by { assert (0.5 / FP_ONE) * FP_ONE == 0.5; }
  }

  /** The written node has the camera on the side of the line itself: the line is exact, or the camera clear of it. */
  predicate SideKept(l: Line, p: Point) { ExactLine(l) || (LineFits(l) && ClearOf(p, l)) }

  /** The part of an inner node on the camera's closed side of its line, and the other one. */
  function NearPart(b: T.Bsp, u: T.Tree, p: Point): T.Tree
    requires u.Inner? && u.idx < |b.nodes|
  {
    if Side(p, b.nodes[u.idx].line) >= 0.0 then u.right else u.left
  }

  function FarPart(b: T.Bsp, u: T.Tree, p: Point): T.Tree
    requires u.Inner? && u.idx < |b.nodes|
  {
    if Side(p, b.nodes[u.idx].line) >= 0.0 then u.left else u.right
  }

  /** The node's line, turned so that the camera lies on its right or on it. */
  function NearLine(b: T.Bsp, u: T.Tree, p: Point): Line
    requires u.Inner? && u.idx < |b.nodes|
  {
    var l := b.nodes[u.idx].line;
    if Side(p, l) >= 0.0 then l else T.Reverse(l)
  }

  /** At a node whose line is near enough, and exact or clear of the camera, all subsectors with the camera on their closed side of the line
      are visited before all that lie on the other closed side. */
  lemma NearSideFirst(b: T.Bsp, child: nat, t: T.Tree, u: T.Tree, camX: fixed, camY: fixed)
    requires |b.nodes| <= T.SUBSECTOR_FLAG && |b.subs| <= T.SUBSECTOR_FLAG
    requires T.Represents(b.subs, b.nodes, child, t) && T.Subs(t) == T.Range(0, |b.subs|) && T.Separated(b, t)
    requires Within(u, t) && u.Inner? && u.idx < |b.nodes|
    requires SideKept(b.nodes[u.idx].line, CameraAt(camX, camY)) && NoWrap(FileNodeOf(b.nodes[u.idx]), camX, camY)
    ensures Shape(Written(b, child), child, t)
    ensures var p := CameraAt(camX, camY);
      && Side(p, NearLine(b, u, p)) >= 0.0
      && T.SubsRight(b, T.Subs(NearPart(b, u, p)), NearLine(b, u, p))
      && T.SubsRight(b, T.Subs(FarPart(b, u, p)), T.Reverse(NearLine(b, u, p)))
      && Precedes(Order(Written(b, child), t, camX, camY), T.Subs(NearPart(b, u, p)), T.Subs(FarPart(b, u, p)))
  {
    hide Precedes, Distinct, FileNodeOf, ExactLine, LineFits, ClearOf, NoWrap, Side, RightFirst, Order, T.SubsRight, Shape, T.Represents;
    var p, n := CameraAt(camX, camY), b.nodes[u.idx];
    BuiltTraverses(b, child, t, camX, camY);
    SeparatedWithin(b, u, t);
    CameraSide(FileNodeOf(n), camX, camY);
    if ExactLine(n.line) { ExactSide(n, camX, camY); } else { RoundedSide(n, camX, camY); }
    T.ReverseSide(p, n.line);
    TwiceReversed(n.line);
    assert Written(b, child).nodes[u.idx] == FileNodeOf(n);
    assert FrontFirst(Written(b, child), Order(Written(b, child), t, camX, camY), u, camX, camY);
  }

  lemma TwiceReversed(l: Line)
    ensures T.Reverse(T.Reverse(l)) == l
  {
  }

  lemma {:induction false} SeparatedWithin(b: T.Bsp, u: T.Tree, t: T.Tree)
    requires T.Separated(b, t) && Within(u, t)
    ensures T.Separated(b, u)
    decreases t
  {
    if u != t {
      if Within(u, t.right) { SeparatedWithin(b, u, t.right); } else { SeparatedWithin(b, u, t.left); }
    }
  }
}
