/** One partition step of tools/bspbuild.py: what becomes of each seg, why both parts are smaller, and how
    what the two subtrees promise adds up to what their parent promises. */
module BspDivide {
  import opened BspGeometry
  import opened BspTree

  /** Where a seg goes; a cut seg is replaced by its two halves, `rightFirst` when the right one starts it. */
  datatype Fate = ToRight | ToLeft | Cut(right: nat, left: nat, rightFirst: bool)

  /** a and c are g cut at a point between its ends. */
  ghost predicate Halves(b: Bsp, g: Seg, a: Seg, c: Seg)
    requires Indexed(b, g)
  {
    && Owner(a) == Owner(g) == Owner(c) && a.v1 == g.v1 && a.v2 == c.v1 < |b.points| && c.v2 == g.v2
    && exists f: real :: Between(b.points[g.v1], b.points[g.v2], b.points[a.v2], f)
  }

  predicate Between(a: Point, c: Point, n: Point, f: real) { 0.0 <= f <= 1.0 && n == Along(a, c, f) }

  ghost predicate FateOk(b: Bsp, l: Line, k: nat, f: Fate) {
    k < |b.segs| && SegOk(b, b.segs[k]) &&
    match f
    case ToRight => SegRight(b, b.segs[k], l)
    case ToLeft => SegRight(b, b.segs[k], Reverse(l)) && !SegRight(b, b.segs[k], l)
    case Cut(r, q, first) =>
      && r < |b.segs| && q < |b.segs| && SegOk(b, b.segs[r]) && SegOk(b, b.segs[q])
      && !SegRight(b, b.segs[k], l) && !SegRight(b, b.segs[k], Reverse(l))
      && SegRight(b, b.segs[r], l) && SegRight(b, b.segs[q], Reverse(l)) && !SegRight(b, b.segs[q], l)
      && if first then Halves(b, b.segs[k], b.segs[r], b.segs[q]) else Halves(b, b.segs[k], b.segs[q], b.segs[r])
  }

  function Rights(S: seq<nat>, F: seq<Fate>): seq<nat>
    requires |F| == |S|
  {
    if S == [] then []
    else
      var n := |S| - 1;
      Rights(S[..n], F[..n]) + match F[n] case ToRight => [S[n]] case ToLeft => [] case Cut(r, _, _) => [r]
  }

  function Lefts(S: seq<nat>, F: seq<Fate>): seq<nat>
    requires |F| == |S|
  {
    if S == [] then []
    else
      var n := |S| - 1;
      Lefts(S[..n], F[..n]) + match F[n] case ToRight => [] case ToLeft => [S[n]] case Cut(_, q, _) => [q]
  }

  ghost predicate Divided(b: Bsp, l: Line, S: seq<nat>, F: seq<Fate>) {
    BspOk(b) && |F| == |S| && forall i :: 0 <= i < |S| ==> FateOk(b, l, S[i], F[i])
  }

  lemma DividedPrefix(b: Bsp, l: Line, S: seq<nat>, F: seq<Fate>)
    requires Divided(b, l, S, F) && S != []
    ensures Divided(b, l, S[..|S| - 1], F[..|S| - 1]) && FateOk(b, l, S[|S| - 1], F[|S| - 1])
  {
    hide FateOk;
  }

  lemma {:induction false} RightSource(b: Bsp, l: Line, S: seq<nat>, F: seq<Fate>, i: nat) returns (j: nat)
    requires Divided(b, l, S, F) && i < |Rights(S, F)|
    ensures j < |S| && ((F[j].ToRight? && Rights(S, F)[i] == S[j]) || (F[j].Cut? && Rights(S, F)[i] == F[j].right))
    decreases |S|
  {
    hide FateOk;
    var n := |S| - 1;
    DividedPrefix(b, l, S, F);
    if i < |Rights(S[..n], F[..n])| { j := RightSource(b, l, S[..n], F[..n], i); } else { j := n; }
  }

  lemma {:induction false} LeftSource(b: Bsp, l: Line, S: seq<nat>, F: seq<Fate>, i: nat) returns (j: nat)
    requires Divided(b, l, S, F) && i < |Lefts(S, F)|
    ensures j < |S| && ((F[j].ToLeft? && Lefts(S, F)[i] == S[j]) || (F[j].Cut? && Lefts(S, F)[i] == F[j].left))
    decreases |S|
  {
    hide FateOk;
    var n := |S| - 1;
    DividedPrefix(b, l, S, F);
    if i < |Lefts(S[..n], F[..n])| { j := LeftSource(b, l, S[..n], F[..n], i); } else { j := n; }
  }

  lemma HalvesRight(b: Bsp, g: Seg, a: Seg, c: Seg, m: Line)
    requires SegOk(b, g) && SegOk(b, a) && SegOk(b, c) && Halves(b, g, a, c) && SegRight(b, g, m)
    ensures SegRight(b, a, m) && SegRight(b, c, m)
  {
    hide Side, Part, Along;
    var f: real :| Between(b.points[g.v1], b.points[g.v2], b.points[a.v2], f);
    SideAlong(b.points[g.v1], b.points[g.v2], f, m);
    BetweenSides(Side(b.points[g.v1], m), Side(b.points[g.v2], m), f);
  }

  /** A seg of either part is a seg of S or one of its halves: same owner, and on no side that it was not on. */
  lemma SourceOf(b: Bsp, l: Line, S: seq<nat>, F: seq<Fate>, right: bool, i: nat) returns (j: nat)
    requires Divided(b, l, S, F) && i < |if right then Rights(S, F) else Lefts(S, F)|
    ensures var k := (if right then Rights(S, F) else Lefts(S, F))[i];
      && j < |S| && S[j] < |b.segs| && k < |b.segs| && Owner(b.segs[k]) == Owner(b.segs[S[j]]) && SegOk(b, b.segs[k]) && SegOk(b, b.segs[S[j]])
      && (forall m :: SegRight(b, b.segs[S[j]], m) ==> SegRight(b, b.segs[k], m))
      && if right then SegRight(b, b.segs[k], l) else SegRight(b, b.segs[k], Reverse(l)) && !SegRight(b, b.segs[k], l)
  {
    hide Side, Part, Rights, Lefts, Owner, Halves, SegRight;
    if right { j := RightSource(b, l, S, F, i); } else { j := LeftSource(b, l, S, F, i); }
    assert FateOk(b, l, S[j], F[j]);
    if F[j].Cut? {
      var g, r, q := b.segs[S[j]], b.segs[F[j].right], b.segs[F[j].left];
      forall m | SegRight(b, g, m) ensures SegRight(b, r, m) && SegRight(b, q, m) {
        if F[j].rightFirst { HalvesRight(b, g, r, q, m); } else { HalvesRight(b, g, q, r, m); }
      }
      assert Owner(r) == Owner(g) == Owner(q) by { HalvesOwner(b, g, if F[j].rightFirst then r else q, if F[j].rightFirst then q else r); }
    }
  }

  lemma HalvesOwner(b: Bsp, g: Seg, a: Seg, c: Seg)
    requires Indexed(b, g) && Halves(b, g, a, c)
    ensures Owner(a) == Owner(g) == Owner(c)
  {
  }

  /** Both parts are valid, lie where S lies, and lie on their own side of the partition line. */
  lemma PartsRight(b: Bsp, l: Line, S: seq<nat>, F: seq<Fate>, right: bool)
    requires Divided(b, l, S, F)
    ensures var P := if right then Rights(S, F) else Lefts(S, F);
      && Valid(b, S) && Valid(b, P) && (forall m :: OnRight(b, S, m) ==> OnRight(b, P, m)) && OnRight(b, P, if right then l else Reverse(l))
  {
    hide Part, Rights, Lefts, SegRight;
    var P := if right then Rights(S, F) else Lefts(S, F);
    forall i | 0 <= i < |S| ensures S[i] < |b.segs| { assert FateOk(b, l, S[i], F[i]); }
    forall i | 0 <= i < |P| ensures P[i] < |b.segs| && SegRight(b, b.segs[P[i]], if right then l else Reverse(l)) {
      var j := SourceOf(b, l, S, F, right, i);
    }
    forall m | OnRight(b, S, m) ensures OnRight(b, P, m) {
      forall i | 0 <= i < |P| ensures SegRight(b, b.segs[P[i]], m) {
        var j := SourceOf(b, l, S, F, right, i);
        assert SegRight(b, b.segs[S[j]], m);
      }
    }
  }

  // ---- the termination measure

  /** The linedef sides with a seg in S whose line still has some of S on its left. */
  ghost function Cuts(b: Bsp, S: seq<nat>): set<(nat, nat, nat)>
    requires BspOk(b) && Valid(b, S)
  {
    set i | 0 <= i < |S| && !OnRight(b, S, Carrier(b, b.segs[S[i]])) :: Owner(b.segs[S[i]])
  }

  lemma CarrierOwner(b: Bsp, g: Seg, h: Seg)
    requires Indexed(b, g) && Indexed(b, h) && Owner(g) == Owner(h)
    ensures Carrier(b, g) == Carrier(b, h)
  {
  }

  /** The line through a seg has the sides of the line it comes from. */
  lemma ThroughCarrier(b: Bsp, p: Seg, g: Seg)
    requires SegOk(b, p) && Indexed(b, g)
    ensures SegRight(b, g, Through(b.points[p.v1], b.points[p.v2])) <==> SegRight(b, g, Carrier(b, p))
  {
    hide Side, Through;
    var a, c, l := b.points[p.v1], b.points[p.v2], Carrier(b, p);
    var scale: real :| Part(a, c, l, scale);
    SameSides(a, c, l, scale, b.points[g.v1]);
    SameSides(a, c, l, scale, b.points[g.v2]);
    SignKept(scale, Side(b.points[g.v1], l));
    SignKept(scale, Side(b.points[g.v2], l));
  }

  /** A seg lies on its own line. */
  lemma OnOwnLine(b: Bsp, g: Seg)
    requires SegOk(b, g)
    ensures SegRight(b, g, Carrier(b, g))
  {
    var scale: real :| Part(b.points[g.v1], b.points[g.v2], Carrier(b, g), scale);
  }

  lemma CutsSubset(b: Bsp, l: Line, S: seq<nat>, F: seq<Fate>, right: bool)
    requires Divided(b, l, S, F)
    ensures var P := if right then Rights(S, F) else Lefts(S, F); Valid(b, S) && Valid(b, P) && Cuts(b, P) <= Cuts(b, S)
  {
    hide Part, Rights, Lefts, SegRight, OnRight, Carrier, Owner;
    PartsRight(b, l, S, F, right);
    var P := if right then Rights(S, F) else Lefts(S, F);
    forall i | 0 <= i < |P| && !OnRight(b, P, Carrier(b, b.segs[P[i]])) ensures Owner(b.segs[P[i]]) in Cuts(b, S) {
      var j := SourceOf(b, l, S, F, right, i);
      CarrierOwner(b, b.segs[P[i]], b.segs[S[j]]);
      assert !OnRight(b, S, Carrier(b, b.segs[S[j]]));
    }
  }

  lemma InCuts(b: Bsp, S: seq<nat>, i: nat)
    requires BspOk(b) && Valid(b, S) && i < |S| && !OnRight(b, S, Carrier(b, b.segs[S[i]]))
    ensures Owner(b.segs[S[i]]) in Cuts(b, S)
  {
  }

  /** The line of the partition seg still cuts S, as something of S lies left of it. */
  lemma PartitionCuts(b: Bsp, S: seq<nat>, F: seq<Fate>, p: nat)
    requires BspOk(b) && p < |S| && S[p] < |b.segs| && Divided(b, Through2(b, S[p]), S, F) && Lefts(S, F) != []
    ensures Valid(b, S) && Owner(b.segs[S[p]]) in Cuts(b, S)
  {
    hide Part, Rights, Lefts, SegRight, Carrier, Owner;
    var l := Through2(b, S[p]);
    PartsRight(b, l, S, F, false);
    var j := SourceOf(b, l, S, F, false, 0);
    var k := Lefts(S, F)[0];
    assert SegOk(b, b.segs[S[p]]);
    assert !SegRight(b, b.segs[S[j]], l);
    ThroughCarrier(b, b.segs[S[p]], b.segs[S[j]]);
    InCuts(b, S, p);
  }

  function Through2(b: Bsp, k: nat): Line
    requires k < |b.segs| && Indexed(b, b.segs[k])
  {
    Through(b.points[b.segs[k].v1], b.points[b.segs[k].v2])
  }

  /** Nothing on the right lies left of the partition line, and no seg of that line goes left. */
  lemma PartitionGone(b: Bsp, S: seq<nat>, F: seq<Fate>, p: nat, right: bool)
    requires BspOk(b) && p < |S| && S[p] < |b.segs| && Divided(b, Through2(b, S[p]), S, F)
    ensures var P := if right then Rights(S, F) else Lefts(S, F); Valid(b, P) && Owner(b.segs[S[p]]) !in Cuts(b, P)
  {
    hide Part, Rights, Lefts, SegRight, Carrier, Owner;
    var l, g := Through2(b, S[p]), b.segs[S[p]];
    PartsRight(b, l, S, F, right);
    var P := if right then Rights(S, F) else Lefts(S, F);
    assert SegOk(b, g);
    forall i | 0 <= i < |P| && Owner(b.segs[P[i]]) == Owner(g) ensures OnRight(b, P, Carrier(b, b.segs[P[i]])) {
      var j := SourceOf(b, l, S, F, right, i);
      CarrierOwner(b, b.segs[P[i]], g);
      if right {
        forall h | 0 <= h < |P| ensures SegRight(b, b.segs[P[h]], Carrier(b, g)) {
          assert SegRight(b, b.segs[P[h]], l) && SegOk(b, b.segs[P[h]]);
          ThroughCarrier(b, g, b.segs[P[h]]);
        }
      } else {
        OnOwnLine(b, b.segs[P[i]]);
        ThroughCarrier(b, g, b.segs[P[i]]);
      }
    }
  }

  lemma ProperSmaller<T>(A: set<T>, B: set<T>, x: T)
    requires A <= B && x in B && x !in A
    ensures |A| < |B|
  {
    assert |B| == |A| + |B - A| by { assert B == A + (B - A); }
    assert x in B - A;
  }

  /** Both parts of a real partition have fewer lines that still cut them. */
  lemma CutsShrink(b: Bsp, S: seq<nat>, F: seq<Fate>, p: nat, right: bool)
    requires BspOk(b) && p < |S| && S[p] < |b.segs| && Divided(b, Through2(b, S[p]), S, F) && Lefts(S, F) != []
    ensures var P := if right then Rights(S, F) else Lefts(S, F); Valid(b, S) && Valid(b, P) && |Cuts(b, P)| < |Cuts(b, S)|
  {
    hide Part, Rights, Lefts, SegRight, Carrier, Owner, Cuts;
    CutsSubset(b, Through2(b, S[p]), S, F, right);
    PartitionCuts(b, S, F, p);
    PartitionGone(b, S, F, p, right);
    ProperSmaller(Cuts(b, if right then Rights(S, F) else Lefts(S, F)), Cuts(b, S), Owner(b.segs[S[p]]));
  }

  lemma CutsGrows(b: Bsp, b': Bsp, S: seq<nat>)
    requires Grows(b, b') && BspOk(b) && BspOk(b') && Valid(b, S)
    ensures Valid(b', S) && Cuts(b', S) == Cuts(b, S)
  {
    hide SegRight, OnRight, Owner, Carrier, Part;
    forall i | 0 <= i < |S| ensures b'.segs[S[i]] == b.segs[S[i]] && Carrier(b', b.segs[S[i]]) == Carrier(b, b.segs[S[i]]) {
      assert SegOk(b, b.segs[S[i]]);
      SegGrows(b, b', b.segs[S[i]]);
    }
    forall l ensures OnRight(b', S, l) <==> OnRight(b, S, l) { OnRightGrows(b, b', S, l); }
    OnRightGrows(b, b', S, Line(0.0, 0.0, 0.0, 0.0));
  }
}
