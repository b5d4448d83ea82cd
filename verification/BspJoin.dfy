/** How the promises of a leaf are met, and how those of two subtrees add up to their parent's. */
module BspJoin {
  import opened BspGeometry
  import opened BspTree
  import opened BspDivide

  // ---- chains

  /** The chains of S from those of its two parts. */
  function Merge(S: seq<nat>, F: seq<Fate>, cr: seq<seq<nat>>, cl: seq<seq<nat>>): (cs: seq<seq<nat>>)
    requires |F| == |S| && |cr| == |Rights(S, F)| && |cl| == |Lefts(S, F)|
    ensures |cs| == |S|
  {
    if S == [] then []
    else
      var n, r, q := |S| - 1, |cr| - 1, |cl| - 1;
      match F[n]
      case ToRight => Merge(S[..n], F[..n], cr[..r], cl) + [cr[r]]
      case ToLeft => Merge(S[..n], F[..n], cr, cl[..q]) + [cl[q]]
      case Cut(_, _, first) => Merge(S[..n], F[..n], cr[..r], cl[..q]) + [if first then cr[r] + cl[q] else cl[q] + cr[r]]
  }

  ghost predicate AllChains(finals: seq<Seg>, segs: seq<Seg>, S: seq<nat>, cs: seq<seq<nat>>) {
    |cs| == |S| && forall i :: 0 <= i < |S| ==> S[i] < |segs| && ChainOf(finals, cs[i], segs[S[i]])
  }

  lemma AllPrefix(finals: seq<Seg>, segs: seq<Seg>, S: seq<nat>, cs: seq<seq<nat>>, S': seq<nat>, x: nat)
    requires AllChains(finals, segs, S, cs) && S == S' + [x]
    ensures cs != [] && AllChains(finals, segs, S', cs[..|cs| - 1]) && x < |segs| && ChainOf(finals, cs[|cs| - 1], segs[x])
  {
    hide ChainOf;
    forall i | 0 <= i < |S'| ensures S'[i] < |segs| && ChainOf(finals, cs[i], segs[S'[i]]) { assert S'[i] == S[i]; }
    assert S[|S'|] == x;
  }

  lemma FlatAppend(cs: seq<seq<nat>>, c: seq<nat>)
    ensures multiset(Flat(cs + [c])) == multiset(Flat(cs)) + multiset(c)
  {
    assert (cs + [c])[..|cs|] == cs;
  }

  lemma FlatLast(cs: seq<seq<nat>>)
    requires cs != []
    ensures multiset(Flat(cs)) == multiset(Flat(cs[..|cs| - 1])) + multiset(cs[|cs| - 1])
  {
  }

  lemma {:induction false} MergeChains(b: Bsp, l: Line, finals: seq<Seg>, S: seq<nat>, F: seq<Fate>, cr: seq<seq<nat>>, cl: seq<seq<nat>>)
    requires Divided(b, l, S, F) && AllChains(finals, b.segs, Rights(S, F), cr) && AllChains(finals, b.segs, Lefts(S, F), cl)
    ensures AllChains(finals, b.segs, S, Merge(S, F, cr, cl))
    ensures multiset(Flat(Merge(S, F, cr, cl))) == multiset(Flat(cr)) + multiset(Flat(cl))
    decreases |S|
  {
    hide FateOk, ChainOf, Flat, SegOk, AllChains;
    if S == [] {
      NoChains(finals, b.segs, cr, cl);
    } else {
      var n := |S| - 1;
      var S', F', R, L := S[..n], F[..n], Rights(S[..n], F[..n]), Lefts(S[..n], F[..n]);
      DividedPrefix(b, l, S, F);
      match F[n]
      case ToRight =>
        AllPrefix(finals, b.segs, Rights(S, F), cr, R, S[n]);
        assert Lefts(S, F) == L;
        FlatLast(cr);
        MergeOne(b, l, finals, S, F, cr[..|cr| - 1], cl, cr[|cr| - 1]);
      case ToLeft =>
        AllPrefix(finals, b.segs, Lefts(S, F), cl, L, S[n]);
        assert Rights(S, F) == R;
        FlatLast(cl);
        MergeOne(b, l, finals, S, F, cr, cl[..|cl| - 1], cl[|cl| - 1]);
      case Cut(r, q, first) =>
        AllPrefix(finals, b.segs, Rights(S, F), cr, R, r);
        AllPrefix(finals, b.segs, Lefts(S, F), cl, L, q);
        FlatLast(cr);
        FlatLast(cl);
        var a, c := cr[|cr| - 1], cl[|cl| - 1];
        CutChain(b, l, finals, S[n], F[n], a, c);
        MergeOne(b, l, finals, S, F, cr[..|cr| - 1], cl[..|cl| - 1], if first then a + c else c + a);
    }
  }

  lemma NoChains(finals: seq<Seg>, segs: seq<Seg>, cr: seq<seq<nat>>, cl: seq<seq<nat>>)
    requires AllChains(finals, segs, [], cr) && AllChains(finals, segs, [], cl)
    ensures cr == [] && cl == [] && AllChains(finals, segs, [], []) && Flat([]) == []
  {
  }

  lemma CutChain(b: Bsp, l: Line, finals: seq<Seg>, k: nat, f: Fate, a: seq<nat>, c: seq<nat>)
    requires FateOk(b, l, k, f) && f.Cut? && ChainOf(finals, a, b.segs[f.right]) && ChainOf(finals, c, b.segs[f.left])
    ensures k < |b.segs| && ChainOf(finals, if f.rightFirst then a + c else c + a, b.segs[k])
    ensures multiset(if f.rightFirst then a + c else c + a) == multiset(a) + multiset(c)
  {
    hide ChainOf, SegOk, SegRight;
    if f.rightFirst {
      ChainJoin(finals, a, c, b.segs[k], b.segs[f.right], b.segs[f.left]);
    } else {
      ChainJoin(finals, c, a, b.segs[k], b.segs[f.left], b.segs[f.right]);
    }
  }

  lemma {:induction false} MergeOne(b: Bsp, l: Line, finals: seq<Seg>, S: seq<nat>, F: seq<Fate>, cr: seq<seq<nat>>, cl: seq<seq<nat>>, c: seq<nat>)
    requires S != [] && |F| == |S| && S[|S| - 1] < |b.segs| && ChainOf(finals, c, b.segs[S[|S| - 1]])
    requires var n := |S| - 1;
      && Divided(b, l, S[..n], F[..n])
      && AllChains(finals, b.segs, Rights(S[..n], F[..n]), cr) && AllChains(finals, b.segs, Lefts(S[..n], F[..n]), cl)
    ensures var n := |S| - 1; var m := Merge(S[..n], F[..n], cr, cl) + [c];
      AllChains(finals, b.segs, S, m) && multiset(Flat(m)) == multiset(Flat(cr)) + multiset(Flat(cl)) + multiset(c)
    decreases |S|, 0
  {
    hide FateOk, ChainOf, Flat, Divided, Rights, Lefts, Merge;
    var n := |S| - 1;
    MergeChains(b, l, finals, S[..n], F[..n], cr, cl);
    FlatAppend(Merge(S[..n], F[..n], cr, cl), c);
    var m := Merge(S[..n], F[..n], cr, cl) + [c];
    forall i | 0 <= i < |S| ensures S[i] < |b.segs| && ChainOf(finals, m[i], b.segs[S[i]]) {
      if i < n { assert S[i] == S[..n][i]; }
    }
  }

  lemma AllGrow(finals: seq<Seg>, finals': seq<Seg>, segs: seq<Seg>, segs': seq<Seg>, S: seq<nat>, cs: seq<seq<nat>>)
    requires finals <= finals' && AllChains(finals, segs, S, cs)
    requires forall i :: 0 <= i < |S| ==> S[i] < |segs| && S[i] < |segs'| && segs'[S[i]] == segs[S[i]]
    ensures AllChains(finals', segs', S, cs)
  {
    hide ChainOf;
    forall i | 0 <= i < |S| ensures ChainOf(finals', cs[i], segs'[S[i]]) { ChainGrows(finals, finals', cs[i], segs[S[i]]); }
  }

  // ---- a leaf

  function Picked(segs: seq<Seg>, S: seq<nat>): (g: seq<Seg>)
    requires forall i :: 0 <= i < |S| ==> S[i] < |segs|
    ensures |g| == |S|
  {
    seq(|S|, i requires 0 <= i < |S| => segs[S[i]])
  }

  function Singles(lo: nat, n: nat): (cs: seq<seq<nat>>)
    ensures |cs| == n
  {
    seq(n, i requires 0 <= i < n => [lo + i])
  }

  lemma {:induction false} FlatSingles(lo: nat, n: nat)
    ensures Flat(Singles(lo, n)) == Range(lo, lo + n)
  {
    if n > 0 {
      FlatSingles(lo, n - 1);
      assert Singles(lo, n)[..n - 1] == Singles(lo, n - 1);
      assert Singles(lo, n)[n - 1] == [lo + (n - 1)];
      assert Range(lo, lo + n) == Range(lo, lo + (n - 1)) + [lo + (n - 1)];
    }
  }

  ghost predicate LeafStep(b: Bsp, S: seq<nat>, b': Bsp, sector: nat) {
    && BspOk(b) && Valid(b, S)
    && b' == b.(finals := b.finals + Picked(b.segs, S), subs := b.subs + [Subsector(|b.finals|, |S|, sector)])
  }

  lemma LeafSegs(b: Bsp, S: seq<nat>, b': Bsp, sector: nat)
    requires LeafStep(b, S, b', sector)
    ensures |b'.finals| == |b.finals| + |S| && b'.segs == b.segs && b'.points == b.points && b'.linedefs == b.linedefs
    ensures forall i :: 0 <= i < |S| ==> b'.finals[|b.finals| + i] == b.segs[S[i]]
    ensures b'.finals[..|b.finals|] == b.finals
  {
    hide BspOk;
    var p := Picked(b.segs, S);
    forall i | 0 <= i < |S| ensures b'.finals[|b.finals| + i] == b.segs[S[i]] { assert b'.finals[|b.finals| + i] == p[i]; }
  }

  lemma LeafFinals(b: Bsp, S: seq<nat>, b': Bsp, sector: nat)
    requires LeafStep(b, S, b', sector)
    ensures BspOk(b') && Grows(b, b') && |b'.finals| == |b.finals| + |S|
    ensures forall i :: 0 <= i < |S| ==> b'.finals[|b.finals| + i] == b.segs[S[i]] && SegOk(b, b.segs[S[i]])
  {
    hide Part, Carrier, LinedefOk;
    LeafSegs(b, S, b', sector);
    var n := |b.finals|;
    forall f | 0 <= f < |b'.finals| ensures SegOk(b', b'.finals[f]) {
      if f < n {
        assert b'.finals[f] == b.finals[f] && SegOk(b, b.finals[f]);
        SegSame(b, b', b.finals[f]);
      } else {
        var k := S[f - n];
        assert b'.finals[n + (f - n)] == b.segs[k] && SegOk(b, b.segs[k]);
        SegSame(b, b', b.segs[k]);
      }
    }
    LeafOk(b, b');
  }

  lemma SegSame(b: Bsp, b': Bsp, g: Seg)
    requires SegOk(b, g) && b'.points == b.points && b'.linedefs == b.linedefs
    ensures SegOk(b', g)
  {
    hide Part;
    assert Carrier(b', g) == Carrier(b, g);
  }

  lemma LeafChains(b: Bsp, S: seq<nat>, b': Bsp, sector: nat)
    requires LeafStep(b, S, b', sector)
    ensures |b.finals| <= |b'.finals| && ChainsOk(b'.finals, b.segs, S, Singles(|b.finals|, |S|), |b.finals|, |b'.finals|)
  {
    hide BspOk, SegOk, Grows, ChainOf, Flat;
    LeafFinals(b, S, b', sector);
    FlatSingles(|b.finals|, |S|);
    forall i | 0 <= i < |S| ensures ChainOf(b'.finals, [|b.finals| + i], b.segs[S[i]]) {
      OnePiece(b'.finals, |b.finals| + i, b.segs[S[i]]);
    }
  }

  lemma OnePiece(finals: seq<Seg>, f: nat, g: Seg)
    requires f < |finals| && finals[f] == g
    ensures ChainOf(finals, [f], g)
  {
  }

  lemma LeafSides(b: Bsp, S: seq<nat>, b': Bsp, sector: nat, l: Line)
    requires LeafStep(b, S, b', sector) && OnRight(b, S, l)
    ensures BspOk(b') && |b.finals| <= |b'.finals| && FinalsRight(b', |b.finals|, |b'.finals|, l)
  {
    hide SegRight, Part, Carrier, Grows;
    LeafFinals(b, S, b', sector);
    forall f | |b.finals| <= f < |b'.finals| ensures SegRight(b', b'.finals[f], l) {
      var i := f - |b.finals|;
      assert b'.finals[|b.finals| + i] == b.segs[S[i]] && SegRight(b, b.segs[S[i]], l);
      SideSame(b, b', b.segs[S[i]], l);
    }
  }

  lemma LeafBuilt(b: Bsp, S: seq<nat>, b': Bsp, sector: nat)
    requires LeafStep(b, S, b', sector)
    ensures Built(b, S, b', Flagged(|b.subs|), Leaf(|b.subs|), Singles(|b.finals|, |S|))
  {
    hide ChainsOk, OnRight, FinalsRight, BspOk, Singles, Flagged, SegOk, SegRight;
    LeafFinals(b, S, b', sector);
    LeafChains(b, S, b', sector);
    forall l | OnRight(b, S, l) ensures FinalsRight(b', |b.finals|, |b'.finals|, l) { LeafSides(b, S, b', sector, l); }
    LastRange(|b.subs|);
    assert Range(|b.nodes|, |b'.nodes|) == [];
    assert Tiled(b'.subs, |b'.subs|, |b'.subs|, |b'.finals|, |b'.finals|);
  }

  lemma LeafOk(b: Bsp, b': Bsp)
    requires BspOk(b) && b'.points == b.points && b'.linedefs == b.linedefs && b'.segs == b.segs
    requires forall f :: 0 <= f < |b'.finals| ==> SegOk(b', b'.finals[f])
    ensures BspOk(b')
  {
    hide Part, Carrier, LinedefOk;
    forall k | 0 <= k < |b'.segs| ensures SegOk(b', b'.segs[k]) {
      assert SegOk(b, b.segs[k]);
      SegSame(b, b', b.segs[k]);
    }
  }

  lemma SideSame(b: Bsp, b': Bsp, g: Seg, l: Line)
    requires Indexed(b, g) && Indexed(b', g) && b'.points == b.points
    ensures SegRight(b', g, l) <==> SegRight(b, g, l)
  {
  }

  // ---- an inner node

  lemma FinalIs(b: Bsp, f: nat)
    requires BspOk(b) && f < |b.finals|
    ensures SegOk(b, b.finals[f]) && Indexed(b, b.finals[f])
  {
    hide Part;
  }

  lemma FinalsGrow(b: Bsp, b': Bsp, lo: nat, hi: nat, l: Line)
    requires Grows(b, b') && BspOk(b) && BspOk(b') && hi <= |b.finals| && FinalsRight(b, lo, hi, l)
    ensures FinalsRight(b', lo, hi, l)
  {
    hide Side, SegOk;
    forall f | lo <= f < hi ensures Indexed(b', b'.finals[f]) && SegRight(b', b'.finals[f], l) {
      FinalIs(b, f);
      assert b'.finals[f] == b.finals[f] && SegRight(b, b.finals[f], l);
      SegGrows(b, b', b.finals[f]);
    }
  }

  lemma SubsFromFinals(b: Bsp, s0: nat, s1: nat, lo: nat, hi: nat, l: Line)
    requires BspOk(b) && s0 <= s1 <= |b.subs| && hi <= |b.finals| && Tiled(b.subs, s0, s1, lo, hi) && FinalsRight(b, lo, hi, l)
    ensures SubsRight(b, Range(s0, s1), l)
  {
    hide Tiled, SegRight, SegOk;
    var r := Range(s0, s1);
    forall i | 0 <= i < |r| ensures SubRight(b, r[i], l) {
      TiledWithin(b.subs, s0, s1, lo, hi, s0 + i);
      SubInside(b, s0 + i, lo, hi, l);
    }
  }

  lemma SubInside(b: Bsp, s: nat, lo: nat, hi: nat, l: Line)
    requires BspOk(b) && s < |b.subs| && lo <= b.subs[s].first && b.subs[s].first + b.subs[s].num <= hi <= |b.finals| && FinalsRight(b, lo, hi, l)
    ensures SubRight(b, s, l)
  {
    hide SegRight, SegOk;
    forall f | b.subs[s].first <= f < b.subs[s].first + b.subs[s].num ensures Indexed(b, b.finals[f]) && SegRight(b, b.finals[f], l) {
      FinalIs(b, f);
    }
  }

  lemma GrowsTrans(a: Bsp, b: Bsp, c: Bsp)
    requires Grows(a, b) && Grows(b, c)
    ensures Grows(a, c)
  {
  }

  /** b is the state before the partition, b1 after it, b2 after the right subtree, b3 after the left one. */
  ghost predicate Parts(b: Bsp, S: seq<nat>, l: Line, F: seq<Fate>, b1: Bsp, b2: Bsp, cR: nat, tR: Tree, chR: seq<seq<nat>>,
                        b3: Bsp, cL: nat, tL: Tree, chL: seq<seq<nat>>) {
    && BspOk(b) && Valid(b, S) && Grows(b, b1) && b1.finals == b.finals && b1.subs == b.subs && b1.nodes == b.nodes
    && Divided(b1, l, S, F) && Built(b1, Rights(S, F), b2, cR, tR, chR) && Built(b2, Lefts(S, F), b3, cL, tL, chL)
  }

  function WithNode(b: Bsp, l: Line, cR: nat, cL: nat): Bsp { b.(nodes := b.nodes + [Node(l, cR, cL)]) }

  lemma NodeOk(b: Bsp, l: Line, cR: nat, cL: nat)
    requires BspOk(b)
    ensures BspOk(WithNode(b, l, cR, cL)) && Grows(b, WithNode(b, l, cR, cL))
  {
    hide Part, Carrier, LinedefOk;
    forall f | 0 <= f < |b.finals| ensures SegOk(WithNode(b, l, cR, cL), b.finals[f]) { SegSame(b, WithNode(b, l, cR, cL), b.finals[f]); }
    LeafOk(b, WithNode(b, l, cR, cL));
  }

  lemma NodeNumbers(b: Bsp, S: seq<nat>, l: Line, F: seq<Fate>, b1: Bsp, b2: Bsp, cR: nat, tR: Tree, chR: seq<seq<nat>>,
                    b3: Bsp, cL: nat, tL: Tree, chL: seq<seq<nat>>)
    requires Parts(b, S, l, F, b1, b2, cR, tR, chR, b3, cL, tL, chL)
    ensures var b4, t := WithNode(b3, l, cR, cL), Inner(|b3.nodes|, tR, tL);
      && Represents(b4.subs, b4.nodes, |b3.nodes|, t)
      && Subs(t) == Range(|b.subs|, |b4.subs|) && Nodes(t) == Range(|b.nodes|, |b4.nodes|)
      && Tiled(b4.subs, |b.subs|, |b4.subs|, |b.finals|, |b4.finals|)
  {
    hide ChainsOk, OnRight, FinalsRight, BspOk, Divided, Separated, Valid, Rights, Lefts, Tiled, Range;
    var b4 := WithNode(b3, l, cR, cL);
    TreeGrows(b2, b3, cR, tR);
    TreeGrows(b3, b4, cR, tR);
    TreeGrows(b3, b4, cL, tL);
    RangeJoin(|b.subs|, |b2.subs|, |b3.subs|);
    RangeJoin(|b.nodes|, |b2.nodes|, |b3.nodes|);
    RangeJoin(|b.nodes|, |b3.nodes|, |b4.nodes|);
    assert Range(|b3.nodes|, |b4.nodes|) == [|b3.nodes|] by { LastRange(|b3.nodes|); }
    TiledGrows(b2.subs, b3.subs, |b.subs|, |b2.subs|, |b.finals|, |b2.finals|);
    TiledJoin(b3.subs, |b.subs|, |b2.subs|, |b3.subs|, |b.finals|, |b2.finals|, |b3.finals|);
  }

  lemma LastRange(n: nat)
    ensures Range(n, n + 1) == [n]
  {
  }

  lemma NodeChains(b: Bsp, S: seq<nat>, l: Line, F: seq<Fate>, b1: Bsp, b2: Bsp, cR: nat, tR: Tree, chR: seq<seq<nat>>,
                   b3: Bsp, cL: nat, tL: Tree, chL: seq<seq<nat>>)
    requires Parts(b, S, l, F, b1, b2, cR, tR, chR, b3, cL, tL, chL)
    ensures |chR| == |Rights(S, F)| && |chL| == |Lefts(S, F)|
    ensures |b.finals| <= |b3.finals| && ChainsOk(b3.finals, b.segs, S, Merge(S, F, chR, chL), |b.finals|, |b3.finals|)
  {
    hide ChainOf, OnRight, FinalsRight, BspOk, Divided, Separated, Rights, Lefts, Tiled, Range, Merge, Represents, Subs, Nodes;
    PartsRightValid(b1, l, S, F);
    AllGrow(b2.finals, b3.finals, b1.segs, b1.segs, Rights(S, F), chR);
    AllGrow(b3.finals, b3.finals, b2.segs, b1.segs, Lefts(S, F), chL);
    MergeChains(b1, l, b3.finals, S, F, chR, chL);
    AllGrow(b3.finals, b3.finals, b1.segs, b.segs, S, Merge(S, F, chR, chL));
    RangeJoin(|b.finals|, |b2.finals|, |b3.finals|);
  }

  lemma PartsRightValid(b: Bsp, l: Line, S: seq<nat>, F: seq<Fate>)
    requires Divided(b, l, S, F)
    ensures |F| == |S| && Valid(b, Rights(S, F)) && Valid(b, Lefts(S, F))
  {
    PartsRight(b, l, S, F, true);
    PartsRight(b, l, S, F, false);
  }

  lemma NodeSides(b: Bsp, S: seq<nat>, l: Line, F: seq<Fate>, b1: Bsp, b2: Bsp, cR: nat, tR: Tree, chR: seq<seq<nat>>,
                  b3: Bsp, cL: nat, tL: Tree, chL: seq<seq<nat>>, m: Line)
    requires Parts(b, S, l, F, b1, b2, cR, tR, chR, b3, cL, tL, chL)
    ensures |b.finals| <= |b2.finals| <= |b3.finals|
    ensures OnRight(b1, Rights(S, F), m) ==> FinalsRight(b3, |b.finals|, |b2.finals|, m)
    ensures OnRight(b2, Lefts(S, F), m) ==> FinalsRight(b3, |b2.finals|, |b3.finals|, m)
  {
    hide ChainsOk, OnRight, FinalsRight, BspOk, Divided, Separated, Rights, Lefts, Tiled, Range, Represents, Subs, Nodes, Valid;
    PartsRightValid(b1, l, S, F);
    if OnRight(b1, Rights(S, F), m) { FinalsGrow(b2, b3, |b.finals|, |b2.finals|, m); }
  }

  lemma NodeRight(b: Bsp, S: seq<nat>, l: Line, F: seq<Fate>, b1: Bsp, b2: Bsp, cR: nat, tR: Tree, chR: seq<seq<nat>>,
                  b3: Bsp, cL: nat, tL: Tree, chL: seq<seq<nat>>, m: Line)
    requires Parts(b, S, l, F, b1, b2, cR, tR, chR, b3, cL, tL, chL) && OnRight(b, S, m)
    ensures |b.finals| <= |b3.finals| && FinalsRight(b3, |b.finals|, |b3.finals|, m)
  {
    hide ChainsOk, BspOk, Divided, Separated, Rights, Lefts, Tiled, Range, SegRight, OnRight, Represents, Subs, Nodes;
    assert BspOk(b1);
    OnRightGrows(b, b1, S, m);
    PartsRight(b1, l, S, F, true);
    PartsRight(b1, l, S, F, false);
    PartsRightValid(b1, l, S, F);
    OnRightGrows(b1, b2, Lefts(S, F), m);
    NodeSides(b, S, l, F, b1, b2, cR, tR, chR, b3, cL, tL, chL, m);
  }

  lemma NodeSeparated(b: Bsp, S: seq<nat>, l: Line, F: seq<Fate>, b1: Bsp, b2: Bsp, cR: nat, tR: Tree, chR: seq<seq<nat>>,
                      b3: Bsp, cL: nat, tL: Tree, chL: seq<seq<nat>>)
    requires Parts(b, S, l, F, b1, b2, cR, tR, chR, b3, cL, tL, chL)
    ensures Separated(WithNode(b3, l, cR, cL), Inner(|b3.nodes|, tR, tL))
  {
    hide ChainsOk, BspOk, Divided, Rights, Lefts, Tiled, Range, SegRight, OnRight, FinalsRight, SubRight, Represents;
    var b4 := WithNode(b3, l, cR, cL);
    assert BspOk(b1) && BspOk(b3) && BspOk(b2);
    NodeOk(b3, l, cR, cL);
    PartsRight(b1, l, S, F, true);
    PartsRight(b1, l, S, F, false);
    PartsRightValid(b1, l, S, F);
    OnRightGrows(b1, b2, Lefts(S, F), Reverse(l));
    NodeSides(b, S, l, F, b1, b2, cR, tR, chR, b3, cL, tL, chL, l);
    NodeSides(b, S, l, F, b1, b2, cR, tR, chR, b3, cL, tL, chL, Reverse(l));
    FinalsGrow(b3, b4, |b.finals|, |b2.finals|, l);
    FinalsGrow(b3, b4, |b2.finals|, |b3.finals|, Reverse(l));
    TiledGrows(b2.subs, b4.subs, |b.subs|, |b2.subs|, |b.finals|, |b2.finals|);
    SubsFromFinals(b4, |b.subs|, |b2.subs|, |b.finals|, |b2.finals|, l);
    SubsFromFinals(b4, |b2.subs|, |b3.subs|, |b2.finals|, |b3.finals|, Reverse(l));
    TreeGrows(b2, b3, cR, tR);
    TreeGrows(b3, b4, cR, tR);
    TreeGrows(b3, b4, cL, tL);
    assert b4.nodes[|b3.nodes|].line == l;
  }

  /** The parent of two built subtrees is built. */
  lemma NodeBuilt(b: Bsp, S: seq<nat>, l: Line, F: seq<Fate>, b1: Bsp, b2: Bsp, cR: nat, tR: Tree, chR: seq<seq<nat>>,
                  b3: Bsp, cL: nat, tL: Tree, chL: seq<seq<nat>>)
    requires Parts(b, S, l, F, b1, b2, cR, tR, chR, b3, cL, tL, chL)
    ensures |chR| == |Rights(S, F)| && |chL| == |Lefts(S, F)|
    ensures Built(b, S, WithNode(b3, l, cR, cL), |b3.nodes|, Inner(|b3.nodes|, tR, tL), Merge(S, F, chR, chL))
  {
    hide ChainsOk, BspOk, Divided, Rights, Lefts, Tiled, Range, SegRight, OnRight, FinalsRight, Represents, Separated, Subs, Nodes, Merge, Valid;
    var b4 := WithNode(b3, l, cR, cL);
    assert BspOk(b3);
    NodeOk(b3, l, cR, cL);
    GrowsTrans(b, b1, b2);
    GrowsTrans(b, b2, b3);
    GrowsTrans(b, b3, b4);
    NodeNumbers(b, S, l, F, b1, b2, cR, tR, chR, b3, cL, tL, chL);
    NodeChains(b, S, l, F, b1, b2, cR, tR, chR, b3, cL, tL, chL);
    NodeSeparated(b, S, l, F, b1, b2, cR, tR, chR, b3, cL, tL, chL);
    forall m | OnRight(b, S, m) ensures FinalsRight(b4, |b.finals|, |b4.finals|, m) {
      NodeRight(b, S, l, F, b1, b2, cR, tR, chR, b3, cL, tL, chL, m);
      FinalsGrow(b3, b4, |b.finals|, |b3.finals|, m);
    }
  }
}
