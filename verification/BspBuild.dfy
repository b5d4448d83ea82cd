/** tools/bspbuild.py: the builder itself. */
module BspBuild {
  import opened BspGeometry
  import opened BspTree
  import opened BspDivide
  import opened BspJoin

  datatype Class = Right | Left | On | Spanning

  /** classify_seg, from the sides of the two ends. */
  function Classify(d1: real, d2: real): Class {
    if d1 > 0.0 && d2 > 0.0 then Right
    else if d1 < 0.0 && d2 < 0.0 then Left
    else if d1 == 0.0 && d2 == 0.0 then On
    else if (d1 > 0.0 && d2 < 0.0) || (d1 < 0.0 && d2 > 0.0) then Spanning
    else if d1 == 0.0 then if d2 > 0.0 then Right else Left
    else if d1 > 0.0 then Right else Left
  }

  /** What each class says about the two sides of the line. */
  lemma ClassSides(b: Bsp, g: Seg, l: Line)
    requires Indexed(b, g)
    ensures var c := Classify(Side(b.points[g.v1], l), Side(b.points[g.v2], l));
      && (SegRight(b, g, l) <==> c == Right || c == On) && (SegRight(b, g, Reverse(l)) <==> c == Left || c == On)
  {
    hide Side;
    ReverseSide(b.points[g.v1], l);
    ReverseSide(b.points[g.v2], l);
  }

  function ClassOf(b: Bsp, k: nat, c: nat): Class
    requires k < |b.segs| && c < |b.segs| && Indexed(b, b.segs[k]) && Indexed(b, b.segs[c])
  {
    Classify(Side(b.points[b.segs[k].v1], Through2(b, c)), Side(b.points[b.segs[k].v2], Through2(b, c)))
  }

  ghost predicate AllIndexed(b: Bsp, S: seq<nat>) {
    forall i :: 0 <= i < |S| ==> S[i] < |b.segs| && Indexed(b, b.segs[S[i]])
  }

  /** Another seg of S before n lies in this class of candidate c. */
  ghost predicate HasClass(b: Bsp, S: seq<nat>, c: nat, side: Class, n: nat)
    requires AllIndexed(b, S) && c < |b.segs| && Indexed(b, b.segs[c]) && n <= |S|
  {
    exists j :: 0 <= j < n && S[j] != c && ClassOf(b, S[j], c) == side
  }

  /** No seg of S has others on both of its sides. */
  ghost predicate NoneBetween(b: Bsp, S: seq<nat>)
    requires AllIndexed(b, S)
  {
    forall i :: 0 <= i < |S| ==> !(HasClass(b, S, S[i], Left, |S|) && HasClass(b, S, S[i], Right, |S|))
  }

  /** What the builder takes for convex: at most three segs, or no seg between others; segs that span its line do not count. */
  ghost predicate Convex(b: Bsp, S: seq<nat>)
    requires AllIndexed(b, S)
  {
    |S| <= MAX_LEAF_SEGS || NoneBetween(b, S)
  }

  // ---- when a leaf is convex

  /** All of S lies on the closed right side of the line. */
  ghost predicate AllOnSide(b: Bsp, S: seq<nat>, l: Line)
    requires AllIndexed(b, S)
  {
    forall j :: 0 <= j < |S| ==> SegRight(b, b.segs[S[j]], l)
  }

  /** S bounds a convex region: it lies all on one side of the line of each of its segs. */
  ghost predicate TrulyConvex(b: Bsp, S: seq<nat>)
    requires AllIndexed(b, S)
  {
    forall i :: 0 <= i < |S| ==> AllOnSide(b, S, Through2(b, S[i])) || AllOnSide(b, S, Reverse(Through2(b, S[i])))
  }

  ghost predicate NoneSpans(b: Bsp, S: seq<nat>)
    requires AllIndexed(b, S)
  {
    forall i, j :: 0 <= i < |S| && 0 <= j < |S| ==> ClassOf(b, S[j], S[i]) != Spanning
  }

  lemma OwnClass(b: Bsp, k: nat)
    requires k < |b.segs| && Indexed(b, b.segs[k])
    ensures ClassOf(b, k, k) == On
  {
  }

  /** All of S lies on one side of a candidate's line if and only if no seg spans it and not both sides have segs. */
  lemma OneSideIff(b: Bsp, S: seq<nat>, c: nat)
    requires AllIndexed(b, S) && c < |b.segs| && Indexed(b, b.segs[c])
    ensures AllOnSide(b, S, Through2(b, c)) || AllOnSide(b, S, Reverse(Through2(b, c))) <==>
            (forall j :: 0 <= j < |S| ==> ClassOf(b, S[j], c) != Spanning) &&
            !(HasClass(b, S, c, Left, |S|) && HasClass(b, S, c, Right, |S|))
  {
    hide Side, Classify, SegRight, Through2, Reverse, Indexed;
    var l := Through2(b, c);
    OwnClass(b, c);
    forall j | 0 <= j < |S|
      ensures SegRight(b, b.segs[S[j]], l) <==> ClassOf(b, S[j], c) == Right || ClassOf(b, S[j], c) == On
      ensures SegRight(b, b.segs[S[j]], Reverse(l)) <==> ClassOf(b, S[j], c) == Left || ClassOf(b, S[j], c) == On
    {
      ClassSides(b, b.segs[S[j]], l);
    }
    hide ClassOf;
  }

  /** Segs are convex if and only if none of them spans the line of another and none lies between others. */
  lemma TrulyConvexIff(b: Bsp, S: seq<nat>)
    requires AllIndexed(b, S)
    ensures TrulyConvex(b, S) <==> NoneSpans(b, S) && NoneBetween(b, S)
  {
    hide ClassOf, HasClass, AllOnSide, Through2, Reverse, Indexed;
    forall i | 0 <= i < |S|
      ensures AllOnSide(b, S, Through2(b, S[i])) || AllOnSide(b, S, Reverse(Through2(b, S[i]))) <==>
              (forall j :: 0 <= j < |S| ==> ClassOf(b, S[j], S[i]) != Spanning) &&
              !(HasClass(b, S, S[i], Left, |S|) && HasClass(b, S, S[i], Right, |S|))
    {
      OneSideIff(b, S, S[i]);
    }
  }

  /** Segs that pass the builder's test are convex if and only if none spans the line of another and, when there are at
      most three, none lies between the others. Convex segs always pass, so a leaf made without passing is not convex. */
  lemma LeafConvexIff(b: Bsp, S: seq<nat>)
    requires AllIndexed(b, S)
    ensures Convex(b, S) ==> (TrulyConvex(b, S) <==> NoneSpans(b, S) && (|S| <= MAX_LEAF_SEGS ==> NoneBetween(b, S)))
    ensures TrulyConvex(b, S) ==> Convex(b, S)
  {
    hide NoneSpans, NoneBetween, TrulyConvex;
    TrulyConvexIff(b, S);
  }

  datatype Tally = Tally(left: nat, right: nat, split: nat)

  /** How the first n segs of S fall for candidate c, c itself counting as right. */
  ghost function Counts(b: Bsp, S: seq<nat>, c: nat, n: nat): Tally
    requires AllIndexed(b, S) && c < |b.segs| && Indexed(b, b.segs[c]) && n <= |S|
  {
    if n == 0 then Tally(0, 0, 0)
    else
      var t := Counts(b, S, c, n - 1);
      if S[n - 1] == c then t.(right := t.right + 1)
      else match ClassOf(b, S[n - 1], c)
        case Left => t.(left := t.left + 1)
        case Spanning => t.(split := t.split + 1)
        case _ => t.(right := t.right + 1)
  }

  lemma CountsNext(b: Bsp, S: seq<nat>, c: nat, n: nat)
    requires AllIndexed(b, S) && c < |b.segs| && Indexed(b, b.segs[c]) && n < |S|
    ensures Counts(b, S, c, 0) == Tally(0, 0, 0)
    ensures var t, s := Counts(b, S, c, n), if S[n] == c then On else ClassOf(b, S[n], c);
      Counts(b, S, c, n + 1) == Tally(if s == Left then t.left + 1 else t.left, if s == Right || s == On then t.right + 1 else t.right,
                                      if s == Spanning then t.split + 1 else t.split)
  {
    hide ClassOf;
  }

  lemma HasClassNext(b: Bsp, S: seq<nat>, c: nat, side: Class, n: nat)
    requires AllIndexed(b, S) && c < |b.segs| && Indexed(b, b.segs[c]) && n < |S|
    ensures !HasClass(b, S, c, side, 0)
    ensures HasClass(b, S, c, side, n + 1) <==> HasClass(b, S, c, side, n) || (S[n] != c && ClassOf(b, S[n], c) == side)
    ensures HasClass(b, S, c, side, n + 1) ==> HasClass(b, S, c, side, |S|)
  {
    hide ClassOf;
  }

  function Distance(a: int, b: int): int { if a > b then a - b else b - a }

  /** Five for each split plus the imbalance. */
  ghost function Score(b: Bsp, S: seq<nat>, c: nat): int
    requires AllIndexed(b, S) && c < |b.segs| && Indexed(b, b.segs[c])
  {
    var t := Counts(b, S, c, |S|);
    t.split * 5 + Distance(t.left, t.right)
  }

  /** The first of the segs of S with the least score. */
  ghost predicate Best(b: Bsp, S: seq<nat>, p: nat)
    requires AllIndexed(b, S)
  {
    && p < |S|
    && (forall i :: 0 <= i < |S| ==> Score(b, S, S[p]) <= Score(b, S, S[i]))
    && (forall i :: 0 <= i < p ==> Score(b, S, S[p]) < Score(b, S, S[i]))
  }

  /** No seg of S lies left of the candidate's line, not even in part. */
  ghost predicate NoneLeft(b: Bsp, S: seq<nat>, c: nat)
    requires AllIndexed(b, S) && c < |b.segs| && Indexed(b, b.segs[c])
  {
    forall j :: 0 <= j < |S| ==> ClassOf(b, S[j], c) == Right || ClassOf(b, S[j], c) == On
  }

  /** When segs become a leaf: they pass the convexity test, or nothing lies left of the seg that would divide them. */
  ghost predicate LeafCause(b: Bsp, S: seq<nat>)
    requires AllIndexed(b, S)
  {
    Convex(b, S) || exists p: nat :: Undivided(b, S, p)
  }

  /** Seg p of S would divide S, and nothing lies left of it. */
  ghost predicate Undivided(b: Bsp, S: seq<nat>, p: nat)
    requires AllIndexed(b, S)
  {
    Best(b, S, p) && NoneLeft(b, S, S[p])
  }

  lemma BestUnique(b: Bsp, S: seq<nat>, p: nat, q: nat)
    requires AllIndexed(b, S) && Best(b, S, p) && Best(b, S, q)
    ensures p == q
  {
    hide Score;
    assert Score(b, S, S[p]) <= Score(b, S, S[q]) && Score(b, S, S[q]) <= Score(b, S, S[p]);
  }

  // ---- which tree is built

  /** Subsector s, the next one, holds the segs of S in their order, and the sector of the first. */
  predicate HoldsSegs(b: Bsp, S: seq<nat>, b': Bsp, s: nat)
    requires Valid(b, S)
  {
    && s == |b.subs| < |b'.subs| && |b.finals| + |S| <= |b'.finals|
    && b'.subs[s] == Subsector(|b.finals|, |S|, if S == [] then 0 else b.segs[S[0]].sector)
    && forall i :: 0 <= i < |S| ==> b'.finals[|b.finals| + i] == b.segs[S[i]]
  }

  /** Node i lies on the line of the best seg of S, and b1 is b with the segs of S divided by it. */
  ghost predicate DividedBy(b: Bsp, S: seq<nat>, b': Bsp, i: nat, p: nat, F: seq<Fate>, b1: Bsp)
    requires AllIndexed(b, S)
  {
    && Best(b, S, p) && |F| == |S| && i < |b'.nodes| && b'.nodes[i].line == Through2(b, S[p])
    && Grows(b, b1) && b1.finals == b.finals && b1.subs == b.subs && b1.nodes == b.nodes
    && Divided(b1, Through2(b, S[p]), S, F)
  }

  /** t is the tree of S: a leaf exactly when there is cause for one, and then it holds the segs of S; else a node on the
      line of the best seg, with the trees of what goes right and of what goes left of it. */
  ghost predicate TreeOf(b: Bsp, S: seq<nat>, b': Bsp, t: Tree)
    decreases t
  {
    && Grows(b, b') && AllIndexed(b, S) && (t.Leaf? <==> LeafCause(b, S)) &&
    match t
    case Leaf(s) => HoldsSegs(b, S, b', s)
    case Inner(i, r, l) =>
      exists p: nat, F: seq<Fate>, b1: Bsp, b2: Bsp ::
        DividedBy(b, S, b', i, p, F, b1) && TreeOf(b1, Rights(S, F), b2, r) && TreeOf(b2, Lefts(S, F), b', l)
  }

  lemma {:induction false} TreeOfGrows(b: Bsp, S: seq<nat>, b1: Bsp, t: Tree, b2: Bsp)
    requires TreeOf(b, S, b1, t) && Grows(b1, b2)
    ensures TreeOf(b, S, b2, t)
    decreases t
  {
    hide LeafCause, Best, Divided, Through2, Rights, Lefts, AllIndexed, HoldsSegs, Grows;
    GrowsTrans(b, b1, b2);
    match t
    case Leaf(s) => HoldsGrows(b, S, b1, s, b2);
    case Inner(i, r, l) =>
      var p: nat, F: seq<Fate>, x1: Bsp, x2: Bsp :|
        DividedBy(b, S, b1, i, p, F, x1) && TreeOf(x1, Rights(S, F), x2, r) && TreeOf(x2, Lefts(S, F), b1, l);
      TreeOfGrows(x2, Lefts(S, F), b1, l, b2);
      SameNode(b, S, b1, i, p, F, x1, b2);
  }

  lemma HoldsGrows(b: Bsp, S: seq<nat>, b1: Bsp, s: nat, b2: Bsp)
    requires AllIndexed(b, S) && HoldsSegs(b, S, b1, s) && Grows(b1, b2)
    ensures HoldsSegs(b, S, b2, s)
  {
  }

  // ---- a leaf, looked at by itself

  /** The final segs of subsector s as a seg list of their own. */
  function Alone(b: Bsp, s: nat): Bsp
    requires s < |b.subs| && b.subs[s].first + b.subs[s].num <= |b.finals|
  {
    b.(segs := b.finals[b.subs[s].first..b.subs[s].first + b.subs[s].num])
  }

  /** The final segs of subsector s give cause for a leaf. */
  ghost predicate LeafStands(b: Bsp, s: nat) {
    && s < |b.subs| && b.subs[s].first + b.subs[s].num <= |b.finals|
    && AllIndexed(Alone(b, s), Range(0, b.subs[s].num)) && LeafCause(Alone(b, s), Range(0, b.subs[s].num))
  }

  /** The segs of S are those of a in their order. */
  ghost predicate SameSegs(b: Bsp, S: seq<nat>, a: Bsp) {
    && AllIndexed(b, S) && |a.segs| == |S| && a.linedefs == b.linedefs && b.points <= a.points
    && forall i :: 0 <= i < |S| ==> a.segs[i] == b.segs[S[i]]
  }

  lemma SameIndexed(b: Bsp, S: seq<nat>, a: Bsp)
    requires SameSegs(b, S, a)
    ensures AllIndexed(a, Range(0, |S|))
  {
  }

  lemma SameClass(b: Bsp, S: seq<nat>, a: Bsp, j: nat, i: nat)
    requires SameSegs(b, S, a) && j < |S| && i < |S| && AllIndexed(a, Range(0, |S|))
    ensures Indexed(a, a.segs[j]) && Indexed(a, a.segs[i]) && ClassOf(a, j, i) == ClassOf(b, S[j], S[i])
    ensures S[j] == S[i] || j == i ==> ClassOf(b, S[j], S[i]) == On
  {
    hide Side, Classify, Through;
    assert Range(0, |S|)[j] == j && Range(0, |S|)[i] == i;
    OwnClass(b, S[i]);
  }

  lemma SameHasClass(b: Bsp, S: seq<nat>, a: Bsp, i: nat, side: Class)
    requires SameSegs(b, S, a) && i < |S| && AllIndexed(a, Range(0, |S|)) && (side == Left || side == Right)
    ensures Indexed(a, a.segs[i]) && (HasClass(a, Range(0, |S|), i, side, |S|) <==> HasClass(b, S, S[i], side, |S|))
  {
    hide ClassOf, Indexed;
    var R := Range(0, |S|);
    SameClass(b, S, a, i, i);
    forall j | 0 <= j < |S| ensures R[j] != i && ClassOf(a, R[j], i) == side <==> S[j] != S[i] && ClassOf(b, S[j], S[i]) == side {
      SameClass(b, S, a, j, i);
    }
  }

  lemma {:induction false} SameCounts(b: Bsp, S: seq<nat>, a: Bsp, i: nat, n: nat)
    requires SameSegs(b, S, a) && i < |S| && n <= |S| && AllIndexed(a, Range(0, |S|))
    ensures Indexed(a, a.segs[i]) && Counts(a, Range(0, |S|), i, n) == Counts(b, S, S[i], n)
    decreases n
  {
    hide ClassOf, Indexed;
    SameClass(b, S, a, i, i);
    if n > 0 {
      SameCounts(b, S, a, i, n - 1);
      SameClass(b, S, a, n - 1, i);
      CountsNext(a, Range(0, |S|), i, n - 1);
      CountsNext(b, S, S[i], n - 1);
    }
  }

  lemma SameConvex(b: Bsp, S: seq<nat>, a: Bsp)
    requires SameSegs(b, S, a) && AllIndexed(a, Range(0, |S|))
    ensures Convex(b, S) ==> Convex(a, Range(0, |S|))
  {
    hide HasClass, ClassOf, Indexed;
    forall i | 0 <= i < |S| ensures Range(0, |S|)[i] == i && Indexed(a, a.segs[i]) { assert Indexed(a, a.segs[Range(0, |S|)[i]]); }
    forall i | 0 <= i < |S| && Convex(b, S) && |S| > MAX_LEAF_SEGS
      ensures !(HasClass(a, Range(0, |S|), i, Left, |S|) && HasClass(a, Range(0, |S|), i, Right, |S|))
    {
      SameHasClass(b, S, a, i, Left);
      SameHasClass(b, S, a, i, Right);
    }
  }

  lemma SameUndivided(b: Bsp, S: seq<nat>, a: Bsp, p: nat)
    requires SameSegs(b, S, a) && AllIndexed(a, Range(0, |S|)) && Undivided(b, S, p)
    ensures Undivided(a, Range(0, |S|), p)
  {
    hide Counts, ClassOf;
    var R := Range(0, |S|);
    forall i | 0 <= i < |S| ensures Indexed(a, a.segs[i]) && Score(a, R, R[i]) == Score(b, S, S[i]) { SameCounts(b, S, a, i, |S|); }
    forall j | 0 <= j < |S| ensures ClassOf(a, R[j], R[p]) == Right || ClassOf(a, R[j], R[p]) == On { SameClass(b, S, a, j, p); }
  }

  lemma LeafAlone(b: Bsp, S: seq<nat>, b': Bsp, s: nat)
    requires Grows(b, b') && AllIndexed(b, S) && LeafCause(b, S) && HoldsSegs(b, S, b', s)
    ensures LeafStands(b', s)
  {
    hide Convex, Undivided, AllIndexed;
    var a := Alone(b', s);
    assert SameSegs(b, S, a) by { AloneSame(b, S, b', s); }
    SameIndexed(b, S, a);
    SameConvex(b, S, a);
    if p: nat :| Undivided(b, S, p) { SameUndivided(b, S, a, p); }
  }

  lemma AloneSame(b: Bsp, S: seq<nat>, b': Bsp, s: nat)
    requires Grows(b, b') && AllIndexed(b, S) && HoldsSegs(b, S, b', s)
    ensures SameSegs(b, S, Alone(b', s))
  {
    var a := Alone(b', s);
    forall i | 0 <= i < |S| ensures a.segs[i] == b.segs[S[i]] { assert a.segs[i] == b'.finals[|b.finals| + i]; }
  }

  /** So every subsector of the tree has, by its final segs alone, cause to be a leaf. */
  lemma {:induction false} LeavesStand(b: Bsp, S: seq<nat>, b': Bsp, t: Tree)
    requires TreeOf(b, S, b', t)
    ensures forall s :: s in Subs(t) ==> LeafStands(b', s)
    decreases t
  {
    hide LeafCause, LeafStands, Best, Divided, Through2, Grows, AllIndexed, HoldsSegs, Rights, Lefts;
    match t
    case Leaf(s) => LeafAlone(b, S, b', s);
    case Inner(i, r, l) =>
      var p: nat, F: seq<Fate>, b1: Bsp, b2: Bsp :|
        DividedBy(b, S, b', i, p, F, b1) && TreeOf(b1, Rights(S, F), b2, r) && TreeOf(b2, Lefts(S, F), b', l);
      TreeOfGrows(b1, Rights(S, F), b2, r, b');
      LeavesStand(b1, Rights(S, F), b', r);
      LeavesStand(b2, Lefts(S, F), b', l);
  }

  lemma SameNode(b: Bsp, S: seq<nat>, b1: Bsp, i: nat, p: nat, F: seq<Fate>, x: Bsp, b2: Bsp)
    requires AllIndexed(b, S) && DividedBy(b, S, b1, i, p, F, x) && Grows(b1, b2)
    ensures DividedBy(b, S, b2, i, p, F, x)
  {
    hide Best, Divided, Through2, AllIndexed;
  }

  lemma {:induction false} NoLefts(S: seq<nat>, F: seq<Fate>)
    requires |F| == |S|
    ensures Lefts(S, F) == [] <==> forall i :: 0 <= i < |S| ==> F[i].ToRight?
  {
    if S != [] { NoLefts(S[..|S| - 1], F[..|S| - 1]); }
  }

  /** The left part is empty if and only if no seg lies left of the line. */
  lemma LeftsEmpty(b: Bsp, b1: Bsp, S: seq<nat>, F: seq<Fate>, c: nat)
    requires AllIndexed(b, S) && Grows(b, b1) && c < |b.segs| && Indexed(b, b.segs[c]) && Divided(b1, Through2(b, c), S, F)
    ensures Lefts(S, F) == [] <==> NoneLeft(b, S, c)
  {
    hide Side, Classify, Indexed, Through2, Reverse, SegOk, Lefts, BspOk;
    NoLefts(S, F);
    var l := Through2(b, c);
    forall i | 0 <= i < |S| ensures F[i].ToRight? <==> ClassOf(b, S[i], c) == Right || ClassOf(b, S[i], c) == On {
      assert FateOk(b1, l, S[i], F[i]);
      assert b1.segs[S[i]] == b.segs[S[i]];
      SegGrows(b, b1, b.segs[S[i]]);
      ClassSides(b, b.segs[S[i]], l);
    }
  }

  lemma NoLeaf(b: Bsp, S: seq<nat>, p: nat)
    requires AllIndexed(b, S) && Best(b, S, p) && !Convex(b, S) && p < |S| && S[p] < |b.segs| && Indexed(b, b.segs[S[p]]) && !NoneLeft(b, S, S[p])
    ensures !LeafCause(b, S)
  {
    hide Best, Convex, NoneLeft, AllIndexed;
    if q: nat :| Undivided(b, S, q) { BestUnique(b, S, p, q); }
  }

  lemma NodeTree(b: Bsp, S: seq<nat>, b1: Bsp, F: seq<Fate>, p: nat, b2: Bsp, b3: Bsp, b4: Bsp, r: Tree, l: Tree)
    requires AllIndexed(b, S) && Best(b, S, p) && !Convex(b, S) && Grows(b, b1) && b1.finals == b.finals && b1.subs == b.subs && b1.nodes == b.nodes
    requires |F| == |S| && Divided(b1, Through2(b, S[p]), S, F) && Lefts(S, F) != [] && TreeOf(b1, Rights(S, F), b2, r) && TreeOf(b2, Lefts(S, F), b3, l)
    requires Grows(b3, b4) && |b4.nodes| == |b3.nodes| + 1 && b4.nodes[|b3.nodes|].line == Through2(b, S[p])
    ensures TreeOf(b, S, b4, Inner(|b3.nodes|, r, l))
  {
    hide Best, Divided, Through2, Rights, Lefts, AllIndexed, Convex, NoneLeft;
    BestAt(b, S, p);
    LeftsEmpty(b, b1, S, F, S[p]);
    NoLeaf(b, S, p);
    hide LeafCause, Grows;
    TreeOfGrows(b2, Lefts(S, F), b3, l, b4);
    assert DividedBy(b, S, b4, |b3.nodes|, p, F, b1);
    GrowsTrans(b, b1, b2);
    GrowsTrans(b, b2, b4);
  }

  lemma OkIndexed(b: Bsp, S: seq<nat>)
    requires BspOk(b) && Valid(b, S)
    ensures AllIndexed(b, S)
  {
    forall i | 0 <= i < |S| ensures Indexed(b, b.segs[S[i]]) { assert SegOk(b, b.segs[S[i]]); }
  }

  /** A seg that goes to the side its class names has the fate the partition promises. */
  lemma WholeFate(b: Bsp, l: Line, k: nat)
    requires k < |b.segs| && SegOk(b, b.segs[k])
    ensures var c := Classify(Side(b.points[b.segs[k].v1], l), Side(b.points[b.segs[k].v2], l));
      (c == Right || c == On ==> FateOk(b, l, k, ToRight)) && (c == Left ==> FateOk(b, l, k, ToLeft))
  {
    hide Side, Part, Classify, SegRight;
    ClassSides(b, b.segs[k], l);
  }

  /** The partition seg itself goes right. */
  lemma PartitionFate(b: Bsp, p: nat)
    requires BspOk(b) && p < |b.segs| && Indexed(b, b.segs[p])
    ensures FateOk(b, Through2(b, p), p, ToRight)
  {
    hide Side, Part;
    assert SegOk(b, b.segs[p]);
    OnOwnLine(b, b.segs[p]);
    ThroughCarrier(b, b.segs[p], b.segs[p]);
  }

  // ---- cutting a seg

  function HalfA(g: Seg, n: nat): Seg { Seg(g.v1, n, g.linedef, g.side, g.sector) }

  function HalfB(g: Seg, n: nat): Seg { Seg(n, g.v2, g.linedef, g.side, g.sector) }

  lemma HalvesOk(b: Bsp, g: Seg, f: real, n: nat)
    requires SegOk(b, g) && 0.0 < f < 1.0 && n < |b.points| && b.points[n] == Along(b.points[g.v1], b.points[g.v2], f)
    ensures SegOk(b, HalfA(g, n)) && SegOk(b, HalfB(g, n)) && Halves(b, g, HalfA(g, n), HalfB(g, n))
  {
    hide Part, Along, Through;
    var scale: real :| Part(b.points[g.v1], b.points[g.v2], Carrier(b, g), scale);
    HalvesAreParts(b.points[g.v1], b.points[g.v2], Carrier(b, g), scale, f);
    CarrierOwner(b, g, HalfA(g, n));
    CarrierOwner(b, g, HalfB(g, n));
    assert Part(b.points[g.v1], b.points[n], Carrier(b, HalfA(g, n)), f * scale);
    assert Part(b.points[n], b.points[g.v2], Carrier(b, HalfB(g, n)), (1.0 - f) * scale);
    assert Between(b.points[g.v1], b.points[g.v2], b.points[n], f);
  }

  /** The half that starts at an end on the right lies right, the other one left. */
  lemma HalfSides(b: Bsp, g: Seg, n: nat, l: Line)
    requires Indexed(b, g) && n < |b.points| && Side(b.points[n], l) == 0.0
    requires Classify(Side(b.points[g.v1], l), Side(b.points[g.v2], l)) == Spanning
    ensures var right, left := if Side(b.points[g.v1], l) > 0.0 then HalfA(g, n) else HalfB(g, n), if Side(b.points[g.v1], l) > 0.0 then HalfB(g, n) else HalfA(g, n);
      Indexed(b, right) && Indexed(b, left) && SegRight(b, right, l) && SegRight(b, left, Reverse(l)) && !SegRight(b, left, l)
    ensures !SegRight(b, g, l) && !SegRight(b, g, Reverse(l))
  {
    hide Side;
    ReverseSide(b.points[g.v1], l);
    ReverseSide(b.points[g.v2], l);
    ReverseSide(b.points[n], l);
  }

  lemma CutPoint(a: Point, c: Point, l: Line)
    requires Classify(Side(a, l), Side(c, l)) == Spanning
    ensures var d1, d2 := Side(a, l), Side(c, l); var f := d1 / (d1 - d2); 0.0 < f < 1.0 && Side(Along(a, c, f), l) == 0.0
  {
    hide Side, Along;
    var d1, d2 := Side(a, l), Side(c, l);
    CrossingOnLine(d1, d2);
    SideAlong(a, c, d1 / (d1 - d2), l);
  }

  lemma FateGrows(b: Bsp, b': Bsp, l: Line, k: nat, f: Fate)
    requires Grows(b, b') && FateOk(b, l, k, f)
    ensures FateOk(b', l, k, f)
  {
    hide Side, Part, Along, Carrier, Reverse, LinedefOk;
    assert b'.segs[k] == b.segs[k];
    SegGrows(b, b', b.segs[k]);
    if f.Cut? {
      assert b'.segs[f.right] == b.segs[f.right] && b'.segs[f.left] == b.segs[f.left];
      SegGrows(b, b', b.segs[f.right]);
      SegGrows(b, b', b.segs[f.left]);
      if f.rightFirst {
        HalvesGrow(b, b', b.segs[k], b.segs[f.right], b.segs[f.left]);
      } else {
        HalvesGrow(b, b', b.segs[k], b.segs[f.left], b.segs[f.right]);
      }
    }
  }

  lemma HalvesGrow(b: Bsp, b': Bsp, g: Seg, a: Seg, c: Seg)
    requires Grows(b, b') && Indexed(b, g) && Indexed(b', g) && Halves(b, g, a, c)
    ensures Halves(b', g, a, c)
  {
    hide Along;
    var f: real :| Between(b.points[g.v1], b.points[g.v2], b.points[a.v2], f);
    assert Between(b'.points[g.v1], b'.points[g.v2], b'.points[a.v2], f);
  }

  /** b with a point and the two halves of seg k added. */
  function WithCut(b: Bsp, n: Point, right: Seg, left: Seg): Bsp { b.(points := b.points + [n], segs := b.segs + [right, left]) }

  lemma CutOk(b: Bsp, l: Line, k: nat)
    requires BspOk(b) && k < |b.segs| && Indexed(b, b.segs[k])
    requires var g := b.segs[k]; Classify(Side(b.points[g.v1], l), Side(b.points[g.v2], l)) == Spanning
    ensures var g, m := b.segs[k], |b.segs|; var d1, d2 := Side(b.points[g.v1], l), Side(b.points[g.v2], l);
      var n := Along(b.points[g.v1], b.points[g.v2], d1 / (d1 - d2)); var first := d1 > 0.0;
      var b' := WithCut(b, n, if first then HalfA(g, |b.points|) else HalfB(g, |b.points|), if first then HalfB(g, |b.points|) else HalfA(g, |b.points|));
      Grows(b, b') && BspOk(b') && FateOk(b', l, k, Cut(m, m + 1, first))
  {
    hide Side, Part, Along, Carrier, Reverse, Classify, SegRight, Halves, LinedefOk;
    var g, m := b.segs[k], |b.segs|;
    var d1, d2, first := Side(b.points[g.v1], l), Side(b.points[g.v2], l), Side(b.points[g.v1], l) > 0.0;
    CutPoint(b.points[g.v1], b.points[g.v2], l);
    assert d1 - d2 != 0.0 by { Spans(d1, d2); }
    var f := d1 / (d1 - d2);
    var n := Along(b.points[g.v1], b.points[g.v2], f);
    var right, left := if first then HalfA(g, |b.points|) else HalfB(g, |b.points|), if first then HalfB(g, |b.points|) else HalfA(g, |b.points|);
    var b' := WithCut(b, n, right, left);
    assert SegOk(b, g);
    SegGrows(b, b', g);
    HalvesOk(b', g, f, |b.points|);
    HalfSides(b', g, |b.points|, l);
    MoreSegs(b, b', right, left);
  }

  lemma Spans(d1: real, d2: real)
    requires Classify(d1, d2) == Spanning
    ensures d1 - d2 != 0.0
  {
  }

  lemma MoreSegs(b: Bsp, b': Bsp, right: Seg, left: Seg)
    requires BspOk(b) && Grows(b, b') && b'.segs == b.segs + [right, left] && b'.finals == b.finals && SegOk(b', right) && SegOk(b', left)
    ensures BspOk(b')
  {
    hide Part, Carrier, LinedefOk;
    forall k | 0 <= k < |b'.segs| ensures SegOk(b', b'.segs[k]) {
      if k < |b.segs| {
        assert SegOk(b, b.segs[k]);
        SegGrows(b, b', b.segs[k]);
      }
    }
    forall f | 0 <= f < |b'.finals| ensures SegOk(b', b'.finals[f]) {
      assert SegOk(b, b.finals[f]);
      SegGrows(b, b', b.finals[f]);
    }
  }

  /** One more seg of S has its fate. */
  lemma DividedNext(b: Bsp, b': Bsp, l: Line, S: seq<nat>, F: seq<Fate>, k: nat, f: Fate)
    requires Grows(b, b') && BspOk(b') && Divided(b, l, S, F) && FateOk(b', l, k, f)
    ensures Divided(b', l, S + [k], F + [f])
    ensures Rights(S + [k], F + [f]) == Rights(S, F) + match f case ToRight => [k] case ToLeft => [] case Cut(r, _, _) => [r]
    ensures Lefts(S + [k], F + [f]) == Lefts(S, F) + match f case ToRight => [] case ToLeft => [k] case Cut(_, q, _) => [q]
  {
    hide FateOk, BspOk;
    assert (S + [k])[..|S|] == S && (F + [f])[..|F|] == F;
    forall i | 0 <= i < |S| ensures FateOk(b', l, S[i], F[i]) { FateGrows(b, b', l, S[i], F[i]); }
  }

  lemma Nothing(b: Bsp, l: Line)
    requires BspOk(b)
    ensures Divided(b, l, [], []) && Rights([], []) == [] && Lefts([], []) == []
  {
  }

  lemma IndexedNow(b: Bsp, k: nat)
    requires BspOk(b) && k < |b.segs|
    ensures SegOk(b, b.segs[k]) && Indexed(b, b.segs[k])
  {
    hide Part;
  }

  lemma PartitionStays(b: Bsp, b': Bsp, p: nat)
    requires BspOk(b) && Grows(b, b') && p < |b.segs| && Indexed(b, b.segs[p])
    ensures FateOk(b', Through2(b, p), p, ToRight)
  {
    hide FateOk, BspOk;
    PartitionFate(b, p);
    FateGrows(b, b', Through2(b, p), p, ToRight);
  }

  lemma {:induction false} AllRightSame(b: Bsp, l: Line, S: seq<nat>, F: seq<Fate>)
    requires Divided(b, l, S, F) && Lefts(S, F) == []
    ensures Rights(S, F) == S
    decreases |S|
  {
    hide FateOk, BspOk;
    if S != [] {
      var n := |S| - 1;
      assert F[n].ToRight?;
      AllRightSame(b, l, S[..n], F[..n]);
    }
  }

  /** A leaf made after a partition that left everything on the right is a leaf for the same segs. */
  lemma LeafAfter(b: Bsp, b1: Bsp, S: seq<nat>, b2: Bsp, child: nat, t: Tree, cs: seq<seq<nat>>)
    requires BspOk(b) && Valid(b, S) && Grows(b, b1) && b1.finals == b.finals && b1.subs == b.subs && b1.nodes == b.nodes
    requires Built(b1, S, b2, child, t, cs)
    ensures Built(b, S, b2, child, t, cs)
  {
    hide ChainOf, Separated, Represents, Subs, Nodes, Tiled, Range, FinalsRight, OnRight, BspOk;
    GrowsTrans(b, b1, b2);
    AllGrow(b2.finals, b2.finals, b1.segs, b.segs, S, cs);
    forall l | OnRight(b, S, l) ensures FinalsRight(b2, |b.finals|, |b2.finals|, l) { OnRightGrows(b, b1, S, l); }
  }

  lemma IndexedAt(b: Bsp, S: seq<nat>, i: nat)
    requires AllIndexed(b, S) && i < |S|
    ensures S[i] < |b.segs| && Indexed(b, b.segs[S[i]])
  {
  }

  lemma BestAt(b: Bsp, S: seq<nat>, p: nat)
    requires AllIndexed(b, S) && Best(b, S, p)
    ensures p < |S| && S[p] < |b.segs| && Indexed(b, b.segs[S[p]])
  {
    hide Score;
    IndexedAt(b, S, p);
  }

  lemma NothingConvex(b: Bsp)
    ensures AllIndexed(b, []) && Convex(b, [])
  {
  }

  lemma BuiltGrows(b: Bsp, S: seq<nat>, b': Bsp, child: nat, t: Tree, cs: seq<seq<nat>>)
    requires Built(b, S, b', child, t, cs)
    ensures Grows(b, b') && Valid(b, S)
  {
    hide ChainsOk, OnRight, FinalsRight, Separated, Represents, Subs, Nodes, Tiled, BspOk;
  }

  /** A leaf made when there is cause for one; b1 is b or what the partition left of it. */
  lemma LeafTree(b: Bsp, b1: Bsp, S: seq<nat>, b2: Bsp, t: Tree)
    requires AllIndexed(b, S) && LeafCause(b, S) && t.Leaf? && Grows(b, b1) && b1.finals == b.finals && b1.subs == b.subs && Grows(b1, b2)
    requires Valid(b1, S) && HoldsSegs(b1, S, b2, t.sub)
    ensures TreeOf(b, S, b2, t)
  {
    hide LeafCause;
    forall i | 0 <= i < |S| ensures b1.segs[S[i]] == b.segs[S[i]] { IndexedAt(b, S, i); }
    GrowsTrans(b, b1, b2);
  }

  lemma SameLine(b: Bsp, b': Bsp, k: nat)
    requires BspOk(b) && Grows(b, b') && k < |b.segs|
    ensures Indexed(b, b.segs[k]) && k < |b'.segs| && Indexed(b', b'.segs[k]) && Through2(b', k) == Through2(b, k)
  {
    hide Part, Through;
    assert SegOk(b, b.segs[k]);
    SegGrows(b, b', b.segs[k]);
    assert b'.segs[k] == b.segs[k];
  }

  lemma Smaller(b: Bsp, b1: Bsp, S: seq<nat>, F: seq<Fate>, p: nat)
    requires BspOk(b) && Valid(b, S) && Grows(b, b1) && BspOk(b1) && p < |S| && Indexed(b, b.segs[S[p]])
    requires Divided(b1, Through2(b, S[p]), S, F) && Lefts(S, F) != []
    ensures Valid(b1, Rights(S, F)) && Valid(b1, Lefts(S, F))
    ensures |Cuts(b1, Rights(S, F))| < |Cuts(b, S)| && |Cuts(b1, Lefts(S, F))| < |Cuts(b, S)|
  {
    hide BspOk, Divided, Rights, Lefts, Cuts, Through2, Indexed;
    SameLine(b, b1, S[p]);
    CutsGrows(b, b1, S);
    CutsShrink(b1, S, F, p, true);
    CutsShrink(b1, S, F, p, false);
  }

  lemma StillSmaller(b: Bsp, b1: Bsp, b2: Bsp, S: seq<nat>, R: seq<nat>, L: seq<nat>, child: nat, t: Tree, cs: seq<seq<nat>>)
    requires BspOk(b) && Valid(b, S) && BspOk(b1) && Valid(b1, L) && |Cuts(b1, L)| < |Cuts(b, S)| && Built(b1, R, b2, child, t, cs)
    ensures BspOk(b2) && Valid(b2, L) && |Cuts(b2, L)| < |Cuts(b, S)|
  {
    hide Cuts, BspOk, ChainsOk, OnRight, FinalsRight, Separated, Represents, Subs, Nodes, Tiled;
    CutsGrows(b1, b2, L);
  }

  // ---- the builder

  class Builder {
    const linedefs: seq<Linedef>
    var points: seq<Point>
    var segs: seq<Seg>
    var finals: seq<Seg>
    var subsectors: seq<Subsector>
    var nodes: seq<Node>

    ghost function State(): Bsp
      reads this
    {
      Bsp(linedefs, points, segs, finals, subsectors, nodes)
    }

    constructor (vertices: seq<Point>, lines: seq<Linedef>)
      ensures State() == Bsp(lines, vertices, [], [], [], [])
    {
      linedefs, points := lines, vertices;
      segs, finals, subsectors, nodes := [], [], [], [];
    }

    /** classify_seg, with the two sides it also returns. The class says on which closed sides of the line the whole seg
        lies: right of it, left of it, on both when on the line, on none when it spans the line. */
    method ClassifySeg(k: nat, l: Line) returns (c: Class, d1: real, d2: real)
      requires k < |segs| && Indexed(State(), segs[k])
      ensures SegRight(State(), segs[k], l) <==> c == Right || c == On
      ensures SegRight(State(), segs[k], Reverse(l)) <==> c == Left || c == On
      ensures d1 == Side(points[segs[k].v1], l) && d2 == Side(points[segs[k].v2], l) && c == Classify(d1, d2)
    {
      ClassSides(State(), segs[k], l);
      d1 := Side(points[segs[k].v1], l);
      d2 := Side(points[segs[k].v2], l);
      c := Classify(d1, d2);
    }

    /** split_seg: a new vertex where the line crosses the seg. */
    method SplitSeg(g: Seg, l: Line, d1: real, d2: real) returns (right: Seg, left: Seg)
      requires Indexed(State(), g) && d1 == Side(points[g.v1], l) && d2 == Side(points[g.v2], l) && Classify(d1, d2) == Spanning
      modifies this`points
      ensures points == old(points) + [Along(old(points)[g.v1], old(points)[g.v2], d1 / (d1 - d2))]
      ensures right == if d1 > 0.0 then HalfA(g, |old(points)|) else HalfB(g, |old(points)|)
      ensures left == if d1 > 0.0 then HalfB(g, |old(points)|) else HalfA(g, |old(points)|)
    {
      var v1, v2 := points[g.v1], points[g.v2];
      var frac := d1 / (d1 - d2);
      CutPoint(v1, v2, l);
      if frac > 1.0 { frac := 1.0; }
      if frac < 0.0 { frac := 0.0; }
      var n := |points|;
      points := points + [Along(v1, v2, frac)];
      var a, c := HalfA(g, n), HalfB(g, n);
      if d1 > 0.0 { return a, c; } else { return c, a; }
    }

    /** _is_convex */
    method IsConvex(S: seq<nat>) returns (convex: bool)
      requires AllIndexed(State(), S)
      ensures convex <==> Convex(State(), S)
    {
      hide Side, Classify, HasClass, SegRight;
      if |S| <= MAX_LEAF_SEGS { return true; }
      var i := 0;
      while i < |S|
        invariant i <= |S|
        invariant forall h :: 0 <= h < i ==> !(HasClass(State(), S, S[h], Left, |S|) && HasClass(State(), S, S[h], Right, |S|))
      {
        var l := Through(points[segs[S[i]].v1], points[segs[S[i]].v2]);
        var hasLeft, hasRight, j := false, false, 0;
        HasClassNext(State(), S, S[i], Left, 0);
        HasClassNext(State(), S, S[i], Right, 0);
        while j < |S|
          invariant j <= |S|
          invariant hasLeft <==> HasClass(State(), S, S[i], Left, j)
          invariant hasRight <==> HasClass(State(), S, S[i], Right, j)
          invariant !(hasLeft && hasRight)
        {
          HasClassNext(State(), S, S[i], Left, j);
          HasClassNext(State(), S, S[i], Right, j);
          if S[j] != S[i] {
            var c, _, _ := ClassifySeg(S[j], l);
            if c == Left { hasLeft := true; } else if c == Right { hasRight := true; }
            if hasLeft && hasRight { return false; }
          }
          j := j + 1;
        }
        i := i + 1;
      }
      return true;
    }

    /** _pick_partition: a seg of S with the least score. */
    method PickPartition(S: seq<nat>) returns (best: nat, ghost p: nat)
      requires AllIndexed(State(), S) && S != []
      ensures Best(State(), S, p) && best == S[p]
    {
      hide Side, Classify, Counts, SegRight;
      best, p := S[0], 0;
      var bestScore := 0;
      var i := 0;
      while i < |S|
        invariant i <= |S| && p < |S| && best == S[p] && best < |segs| && Indexed(State(), segs[best])
        invariant i > 0 ==> p < i && bestScore == Score(State(), S, best) && forall h :: 0 <= h < i ==> bestScore <= Score(State(), S, S[h])
        invariant i > 0 ==> forall h :: 0 <= h < p ==> bestScore < Score(State(), S, S[h])
      {
        var l := Through(points[segs[S[i]].v1], points[segs[S[i]].v2]);
        var left, right, split, j := 0, 0, 0, 0;
        CountsNext(State(), S, S[i], 0);
        while j < |S|
          invariant j <= |S| && Counts(State(), S, S[i], j) == Tally(left, right, split)
        {
          CountsNext(State(), S, S[i], j);
          if S[j] == S[i] {
            right := right + 1;
          } else {
            var c, _, _ := ClassifySeg(S[j], l);
            if c == Right || c == On { right := right + 1; } else if c == Left { left := left + 1; } else { split := split + 1; }
          }
          j := j + 1;
        }
        var score := split * 5 + Distance(left, right);
        if i == 0 || score < bestScore { bestScore, best, p := score, S[i], i; }
        i := i + 1;
      }
    }

    /** _make_subsector */
    method MakeSubsector(S: seq<nat>) returns (child: nat, ghost t: Tree, ghost cs: seq<seq<nat>>)
      requires BspOk(State()) && Valid(State(), S)
      modifies this`finals, this`subsectors
      ensures Built(old(State()), S, State(), child, t, cs) && t.Leaf? && HoldsSegs(old(State()), S, State(), t.sub)
    {
      hide Built, BspOk;
      OkIndexed(State(), S);
      var first := |finals|;
      var sector := if S != [] then segs[S[0]].sector else 0;
      var i := 0;
      while i < |S|
        invariant i <= |S| && finals == old(finals) + Picked(segs, S[..i]) && subsectors == old(subsectors)
      {
        finals := finals + [segs[S[i]]];
        assert Picked(segs, S[..i + 1]) == Picked(segs, S[..i]) + [segs[S[i]]];
        i := i + 1;
      }
      assert S[..i] == S;
      var idx := |subsectors|;
      subsectors := subsectors + [Subsector(first, |S|, sector)];
      child, t, cs := Flagged(idx), Leaf(idx), Singles(first, |S|);
      LeafBuilt(old(State()), S, State(), sector);
    }

    /** The loop of _build_node that hands the segs out to the two sides. */
    method Divide(S: seq<nat>, p: nat) returns (right: seq<nat>, left: seq<nat>, ghost F: seq<Fate>)
      requires BspOk(State()) && Valid(State(), S) && p < |segs| && Indexed(State(), segs[p])
      modifies this`points, this`segs
      ensures Grows(old(State()), State()) && State() == old(State()).(points := points, segs := segs)
      ensures BspOk(State()) && Divided(State(), Through2(old(State()), p), S, F) && right == Rights(S, F) && left == Lefts(S, F)
    {
      hide FateOk, Side, Classify, Along, SegOk, Rights, Lefts, BspOk;
      var l := Through(points[segs[p].v1], points[segs[p].v2]);
      right, left, F := [], [], [];
      Nothing(State(), l);
      var i := 0;
      while i < |S|
        invariant i <= |S| && |F| == i && BspOk(State())
        invariant Grows(old(State()), State()) && State() == old(State()).(points := points, segs := segs)
        invariant Divided(State(), l, S[..i], F) && right == Rights(S[..i], F) && left == Lefts(S[..i], F)
      {
        var k := S[i];
        ghost var b := State();
        IndexedNow(b, k);
        assert S[..i + 1] == S[..i] + [k];
        if k == p {
          PartitionStays(old(State()), b, p);
          right := right + [k];
          DividedNext(b, b, l, S[..i], F, k, ToRight);
          F := F + [ToRight];
        } else {
          var c, d1, d2 := ClassifySeg(k, l);
          WholeFate(b, l, k);
          if c == Right || c == On {
            right := right + [k];
            DividedNext(b, b, l, S[..i], F, k, ToRight);
            F := F + [ToRight];
          } else if c == Left {
            left := left + [k];
            DividedNext(b, b, l, S[..i], F, k, ToLeft);
            F := F + [ToLeft];
          } else {
            CutOk(b, l, k);
            var rightPart, leftPart := SplitSeg(segs[k], l, d1, d2);
            var ri := |segs|;
            segs := segs + [rightPart];
            var li := |segs|;
            segs := segs + [leftPart];
            right, left := right + [ri], left + [li];
            assert b.segs + [rightPart, leftPart] == segs;
            DividedNext(b, State(), l, S[..i], F, k, Cut(ri, li, d1 > 0.0));
            F := F + [Cut(ri, li, d1 > 0.0)];
          }
        }
        i := i + 1;
      }
      assert S[..i] == S;
    }

    /** _build_node: terminates, since fewer lines cut either side, and builds a tree for S. */
    method BuildNode(S: seq<nat>) returns (child: nat, ghost t: Tree, ghost cs: seq<seq<nat>>)
      requires BspOk(State()) && Valid(State(), S)
      modifies this
      ensures Built(old(State()), S, State(), child, t, cs) && TreeOf(old(State()), S, State(), t)
      decreases |Cuts(State(), S)|
    {
      hide Built, FateOk, Side, BspOk, Rights, Lefts, Cuts, SegOk, Convex, Score, Divided, TreeOf, Best, NoneLeft, AllIndexed, HoldsSegs;
      OkIndexed(State(), S);
      if S == [] {
        NothingConvex(State());
        child, t, cs := MakeSubsector([]);
        BuiltGrows(old(State()), S, State(), child, t, cs);
        LeafTree(old(State()), old(State()), S, State(), t);
        return;
      }
      ghost var b := State();
      var convex := IsConvex(S);
      if convex {
        child, t, cs := MakeSubsector(S);
        BuiltGrows(b, S, State(), child, t, cs);
        LeafTree(b, b, S, State(), t);
        return;
      }
      var part; ghost var p;
      part, p := PickPartition(S);
      BestAt(b, S, p);
      IndexedNow(b, part);
      var line := Through(points[segs[part].v1], points[segs[part].v2]);
      var right, left;
      ghost var F;
      right, left, F := Divide(S, part);
      ghost var b1 := State();
      PartsRightValid(b1, line, S, F);
      LeftsEmpty(b, b1, S, F, part);
      if left == [] {
        AllRightSame(b1, line, S, F);
        child, t, cs := MakeSubsector(right);
        LeafAfter(b, b1, S, State(), child, t, cs);
        BuiltGrows(b1, S, State(), child, t, cs);
        assert Undivided(b, S, p);
        LeafTree(b, b1, S, State(), t);
        return;
      }
      Smaller(b, b1, S, F, p);
      ghost var tR, tL, chR, chL;
      var childRight, childLeft;
      childRight, tR, chR := BuildNode(right);
      ghost var b2 := State();
      StillSmaller(b, b1, b2, S, right, left, childRight, tR, chR);
      childLeft, tL, chL := BuildNode(left);
      ghost var b3 := State();
      child := |nodes|;
      nodes := nodes + [Node(line, childRight, childLeft)];
      NodeBuilt(b, S, line, F, b1, b2, childRight, tR, chR, b3, childLeft, tL, chL);
      NodeTree(b, S, b1, F, p, b2, b3, State(), tR, tL);
      t, cs := Inner(child, tR, tL), Merge(S, F, chR, chL);
    }

    /** _generate_segs: a seg for the front of every linedef, and one the other way for the back of a
        two-sided one. */
    method GenerateSegs()
      requires segs == [] && finals == [] && forall i :: 0 <= i < |linedefs| ==> LinedefOk(State(), i)
      modifies this`segs
      ensures BspOk(State()) && segs == Generated(linedefs, |linedefs|)
    {
      hide Side, Part, SegOk;
      var i := 0;
      while i < |linedefs|
        invariant i <= |linedefs| && BspOk(State()) && segs == Generated(linedefs, i)
        invariant State() == old(State()).(segs := segs)
      {
        var ld := linedefs[i];
        ghost var b := State();
        assert LinedefOk(old(State()), i);
        LineSegs(b, i);
        segs := segs + [FrontSeg(ld, i)];
        if ld.back != NO_SECTOR { segs := segs + [BackSeg(ld, i)]; }
        SegsAdded(b, State());
        i := i + 1;
      }
    }

    /** build: a tree for all segs of the map. Every generated seg ends as a chain of pieces that run along it from its
        one end to its other, and the final segs are exactly the pieces of these chains. */
    method Build() returns (root: nat, ghost t: Tree, ghost cs: seq<seq<nat>>)
      requires segs == [] && finals == [] && subsectors == [] && nodes == [] && forall i :: 0 <= i < |linedefs| ==> LinedefOk(State(), i)
      modifies this
      ensures var g := Generated(linedefs, |linedefs|);
        if g == [] then root == 0 && State() == old(State())
        else
          && g <= segs && |cs| == |g| && (forall i :: 0 <= i < |g| ==> ChainOf(finals, cs[i], g[i]) && Runs(State(), cs[i], g[i]))
          && multiset(Flat(cs)) == multiset(Range(0, |finals|))
          && Tiled(subsectors, 0, |subsectors|, 0, |finals|)
          && Represents(subsectors, nodes, root, t) && Subs(t) == Range(0, |subsectors|) && Nodes(t) == Range(0, |nodes|)
          && Separated(State(), t)
          && TreeOf(Bsp(linedefs, old(points), g, [], [], []), Range(0, |g|), State(), t)
          && forall s :: 0 <= s < |subsectors| ==> LeafStands(State(), s)
    {
      hide ChainOf, Tiled, Represents, Separated, Subs, Nodes, BspOk, OnRight, FinalsRight, Cuts, Generated, LinedefOk, Runs, SegOk, TreeOf, LeafStands;
      GenerateSegs();
      if segs == [] { return 0, Leaf(0), []; }
      ghost var b, g := State(), segs;
      root, t, cs := BuildNode(Range(0, |segs|));
      forall i | 0 <= i < |g| ensures ChainOf(finals, cs[i], g[i]) && Runs(State(), cs[i], g[i]) {
        IndexedNow(State(), i);
        assert segs[i] == g[i] && Range(0, |g|)[i] == i;
        ChainRuns(State(), cs[i], g[i]);
      }
      LeavesStand(b, Range(0, |g|), State(), t);
      forall s | 0 <= s < |subsectors| ensures LeafStands(State(), s) { assert Range(0, |subsectors|)[s] in Subs(t); }
    }
  }

  function FrontSeg(ld: Linedef, i: nat): Seg { Seg(ld.v1, ld.v2, i, 0, ld.front) }

  function BackSeg(ld: Linedef, i: nat): Seg { Seg(ld.v2, ld.v1, i, 1, ld.back) }

  function Generated(lds: seq<Linedef>, n: nat): seq<Seg>
    requires n <= |lds|
  {
    if n == 0 then []
    else
      var ld := lds[n - 1];
      Generated(lds, n - 1) + [FrontSeg(ld, n - 1)] + if ld.back != NO_SECTOR then [BackSeg(ld, n - 1)] else []
  }

  /** A line is a part of itself. */
  lemma WholePart(a: Point, c: Point)
    ensures Part(a, c, Through(a, c), 1.0)
  {
    var u, v := c.x - a.x, c.y - a.y;
    assert Side(c, Through(a, c)) == u * v - v * u;
    assert Side(a, Through(a, c)) == 0.0 * v - 0.0 * u;
  }

  /** Two crossing lines and their backs: no seg has others on both of its sides, as those that span its line are not
      counted. So they make one leaf, which is not convex. */
  function Crossing(): Bsp {
    Bsp([Linedef(0, 1, 0, 0), Linedef(2, 3, 0, 0)], [Point(-1.0, 0.0), Point(1.0, 0.0), Point(0.0, -1.0), Point(0.0, 1.0)],
        [Seg(0, 1, 0, 0, 0), Seg(1, 0, 0, 1, 0), Seg(2, 3, 1, 0, 0), Seg(3, 2, 1, 1, 0)], [], [], [])
  }

  function CrossingSide(i: nat, x: real, y: real): real {
    if i == 0 then -2.0 * y else if i == 1 then 2.0 * y else if i == 2 then 2.0 * x else -2.0 * x
  }

  function CrossingLine(i: nat): Line {
    if i == 0 then Line(-1.0, 0.0, 2.0, 0.0) else if i == 1 then Line(1.0, 0.0, -2.0, 0.0)
    else if i == 2 then Line(0.0, -1.0, 0.0, 2.0) else Line(0.0, 1.0, 0.0, -2.0)
  }

  lemma CrossingLines(i: nat)
    requires i < 4
    ensures Indexed(Crossing(), Crossing().segs[i]) && Through2(Crossing(), i) == CrossingLine(i)
  {
    hide Crossing, Through;
    CrossingEnds(i);
    CrossingThrough(i);
  }

  lemma CrossingThrough(i: nat)
    requires i < 4
    ensures Through(CrossingFrom(i), CrossingFrom(if i % 2 == 0 then i + 1 else i - 1)) == CrossingLine(i)
  {
    match i
    case 0 =>
    case 1 =>
    case 2 =>
    case _ =>
  }

  lemma AxisSide(p: Point, l: Line)
    ensures l.dy == 0.0 ==> Side(p, l) == -((p.y - l.y) * l.dx)
    ensures l.dx == 0.0 ==> Side(p, l) == (p.x - l.x) * l.dy
  {
  }

  lemma CrossingSides(i: nat, p: Point)
    requires i < 4
    ensures Side(p, CrossingLine(i)) == CrossingSide(i, p.x, p.y)
  {
    AxisSide(p, CrossingLine(i));
  }

  lemma CrossingClass(i: nat, j: nat)
    requires i < 4 && j < 4
    ensures Indexed(Crossing(), Crossing().segs[i]) && Indexed(Crossing(), Crossing().segs[j])
    ensures ClassOf(Crossing(), j, i) == if i / 2 == j / 2 then On else Spanning
  {
    hide Side, Through2, Crossing;
    CrossingEnds(j);
    CrossingLines(i);
    CrossingSides(i, CrossingFrom(j));
    CrossingSides(i, CrossingFrom(if j % 2 == 0 then j + 1 else j - 1));
    CrossingLines(j);
  }

  function CrossingFrom(j: nat): Point {
    if j == 0 then Point(-1.0, 0.0) else if j == 1 then Point(1.0, 0.0) else if j == 2 then Point(0.0, -1.0) else Point(0.0, 1.0)
  }

  lemma CrossingEnds(j: nat)
    requires j < 4
    ensures |Crossing().segs| == 4 && |Crossing().points| == 4 && Indexed(Crossing(), Crossing().segs[j])
    ensures Crossing().points[Crossing().segs[j].v1] == CrossingFrom(j)
    ensures Crossing().points[Crossing().segs[j].v2] == CrossingFrom(if j % 2 == 0 then j + 1 else j - 1)
  {
  }

  const CROSSING_LEAF: seq<nat> := [0, 1, 2, 3]

  lemma CrossingIndexed()
    ensures |CROSSING_LEAF| == 4 && AllIndexed(Crossing(), CROSSING_LEAF) && forall j :: 0 <= j < 4 ==> CROSSING_LEAF[j] == j
    ensures forall i, j :: 0 <= i < 4 && 0 <= j < 4 ==>
              ClassOf(Crossing(), CROSSING_LEAF[j], CROSSING_LEAF[i]) == if i / 2 == j / 2 then On else Spanning
  {
    hide ClassOf, Crossing, Indexed;
    assert |Crossing().segs| == 4 by { CrossingEnds(0); }
    forall i, j | 0 <= i < 4 && 0 <= j < 4
      ensures Indexed(Crossing(), Crossing().segs[i]) && Indexed(Crossing(), Crossing().segs[j])
      ensures ClassOf(Crossing(), j, i) == if i / 2 == j / 2 then On else Spanning
    {
      CrossingClass(i, j);
    }
  }

  /** A leaf whose segs span the lines of one another: the builder takes it, and it is not convex. */
  lemma CrossingLeaf()
    ensures AllIndexed(Crossing(), CROSSING_LEAF) && Convex(Crossing(), CROSSING_LEAF) && !TrulyConvex(Crossing(), CROSSING_LEAF)
  {
    hide ClassOf, Crossing, Indexed;
    CrossingIndexed();
    hide CROSSING_LEAF, TrulyConvex;
    TrulyConvexIff(Crossing(), CROSSING_LEAF);
    assert ClassOf(Crossing(), CROSSING_LEAF[2], CROSSING_LEAF[0]) == Spanning;
  }

  lemma LineSegs(b: Bsp, i: nat)
    requires LinedefOk(b, i)
    ensures SegOk(b, FrontSeg(b.linedefs[i], i)) && SegOk(b, BackSeg(b.linedefs[i], i))
  {
    hide Side, Part, Through;
    var ld := b.linedefs[i];
    WholePart(b.points[ld.v1], b.points[ld.v2]);
    WholePart(b.points[ld.v2], b.points[ld.v1]);
    assert Part(b.points[ld.v1], b.points[ld.v2], Carrier(b, FrontSeg(ld, i)), 1.0);
    assert Part(b.points[ld.v2], b.points[ld.v1], Carrier(b, BackSeg(ld, i)), 1.0);
  }

  lemma SegsAdded(b: Bsp, b': Bsp)
    requires BspOk(b) && b' == b.(segs := b'.segs) && b.segs <= b'.segs
    requires forall k :: |b.segs| <= k < |b'.segs| ==> SegOk(b, b'.segs[k])
    ensures BspOk(b')
  {
    hide Part, Carrier, LinedefOk;
    forall k | 0 <= k < |b'.segs| ensures SegOk(b', b'.segs[k]) {
      if k < |b.segs| { assert b'.segs[k] == b.segs[k]; }
      SegGrows(b, b', b'.segs[k]);
    }
    forall f | 0 <= f < |b'.finals| ensures SegOk(b', b'.finals[f]) {
      assert SegOk(b, b.finals[f]);
      SegGrows(b, b', b.finals[f]);
    }
  }
}
