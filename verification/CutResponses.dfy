/** claude/json.c on a response that was cut: https_post keeps the first 4095 bytes of a body, and the parser gets those. */
module CutResponses {
  import opened Base
  import opened JsonText
  import opened JsonScan
  import opened ToolCalls
  import opened Responses

  // ---- what the scanners see of a text that is cut

  lemma HasCut(s: string, m: nat, t: nat, pat: string)
    requires m <= |s|
    ensures Has(s[..m], t, pat) <==> Has(s, t, pat) && t + |pat| <= m
  {
    if t + |pat| <= m { assert s[..m][t..t + |pat|] == s[t..t + |pat|]; }
  }

  lemma {:induction false} SkipStringCut(s: string, m: nat, i: nat)
    requires i <= m <= |s|
    ensures SkipString(s[..m], i) == Min(m, SkipString(s, i))
    decreases m - i
  {
    if i < m && s[i] != '"' { SkipStringCut(s, m, if s[i] == '\\' && i + 1 < m then i + 2 else i + 1); }
  }

  /** The scan stops where it did, or at the cut. */
  lemma {:induction false} ScanCut(s: string, m: nat, i: nat, d: nat, open: char, close: char)
    requires i <= m <= |s| && d > 0
    ensures Scan(s[..m], i, d, open, close) == Min(m, Scan(s, i, d, open, close))
    decreases m - i
  {
    if i < m {
      if s[i] == '"' {
        SkipStringCut(s, m, i + 1);
        ScanCut(s, m, SkipString(s[..m], i + 1), d, open, close);
      } else if s[i] == open {
        ScanCut(s, m, i + 1, d + 1, open, close);
      } else if s[i] != close || d > 1 {
        ScanCut(s, m, i + 1, if s[i] == close then d - 1 else d, open, close);
      }
    }
  }

  lemma {:induction false} SkipWsCut(s: string, m: nat, i: nat)
    requires i <= m <= |s|
    ensures SkipWs(s[..m], i) == Min(m, SkipWs(s, i))
    decreases m - i
  {
    if i < m && IsSpace(s[i]) { SkipWsCut(s, m, i + 1); }
  }

  lemma ToolUseCut(s: string, m: nat, t: nat)
    requires t + 6 <= m <= |s| && IsToolUse(s[..m], t)
    ensures IsToolUse(s, t)
  {
    hide Has;
    SkipWsCut(s, m, t + 6);
    var a := SkipWs(s[..m], t + 6);
    var b := if At(s[..m], a) == ':' then a + 1 else a;
    SkipWsCut(s, m, b);
    HasCut(s, m, AfterColon(s[..m], t + 6) + 1, "tool_use");
  }

  lemma QuietCut(s: string, m: nat, lo: nat, hi: nat)
    requires lo <= m <= |s| && hi <= |s| && Quiet(s, lo, hi)
    ensures Quiet(s[..m], lo, Min(hi, m))
  {
    hide Has, IsToolUse;
    forall t | lo <= t < Min(hi, m) && Has(s[..m], t, TYPE) ensures QuietAt(s[..m], t, Min(hi, m)) {
      HasCut(s, m, t, TYPE);
      assert QuietAt(s, t, hi);
      if IsToolUse(s[..m], t) { ToolUseCut(s, m, t); }
    }
  }

  // ---- cutting the blocks of a response

  /** The cut after k characters lies in a tool_use block among the first n, behind the word that says so. */
  predicate CutInCall(bs: seq<Block>, n: nat, k: int) {
    bs != [] && n > 0 &&
    var b := bs[0];
    if k < |BlockText(b)| then b.ToolBlock? && k >= |CALL_START|
    else CutInCall(bs[1..], if b.ToolBlock? then n - 1 else n, k - |BlockText(b)| - 1)
  }

  /** The blocks that lie before the cut. */
  function Whole(bs: seq<Block>, k: int): seq<Block> {
    if bs == [] || k < |BlockText(bs[0])| then [] else [bs[0]] + Whole(bs[1..], k - |BlockText(bs[0])| - 1)
  }

  /** A tool_use block cut before its word is quiet. */
  lemma HeadQuiet(s: string, o: nat)
    requires o <= |s| < o + |CALL_START| && (o + 7 < |s| ==> s[o + 7] == ':') && (o < |s| ==> s[o] == '{')
    ensures Quiet(s, o, |s|)
  {
    hide Has, AfterColon;
    forall t | o <= t < |s| && Has(s, t, TYPE) ensures QuietAt(s, t, |s|) {
      WordQuotes(s, t, "type");
      HasFits(s, t, TYPE);
      var a := AfterColon(s, t + 6);
      if IsToolUse(s, t) { HasFits(s, a + 1, "tool_use"); }
    }
  }

  /** A cut block: the parser runs over the NUL if and only if it has taken the block for a call. */
  lemma CutBlock(s: string, m: nat, o: nat, b: Block, n: nat)
    requires BlockOk(b) && Has(s, o, BlockText(b)) && o <= m < o + |BlockText(b)| && m <= |s|
    ensures var r := Parse(s[..m], o, n);
      (r.pastEnd <==> n > 0 && b.ToolBlock? && m - o >= |CALL_START|) && (!r.pastEnd ==> r.calls == [])
  {
    hide Parse, Has, BlockText, BlockOk, Quiet, QuietAt, Find, Back, IsToolUse, Scan, Overruns, ReadCall;
    var cut := s[..m];
    if n == 0 {
      ParseDone(cut, o, n);
    } else if b.TextBlock? {
      TextQuiet(s, o, b);
      QuietCut(s, m, o, o + |BlockText(b)|);
      QuietSkip(cut, o, m, n);
      ParseDone(cut, m, n);
    } else {
      ToolStart(b);
      var rest :| BlockText(b) == CALL_START + rest;
      HasSplit(s, o, CALL_START, rest);
      CallStarts(s, o);
      HasCut(s, m, o, CALL_START);
      if m - o < |CALL_START| {
        HasAt(s, o, CALL_START, 7);
        HeadQuiet(cut, o);
        QuietSkip(cut, o, m, n);
        ParseDone(cut, m, n);
      } else {
        CallStarts(cut, o);
        BlockIsJson(b);
        MatchingClose(s, o, BlockJson(b));
        ScanCut(s, m, o + 1, 1, '{', '}');
        ParseCall(cut, o, n, o + 1, o, m);
        ParseDone(cut, m + 1, n - 1);
      }
    }
  }

  /** A block that lies before the cut is read as it is. */
  lemma WholeBlock(s: string, m: nat, o: nat, b: Block, n: nat)
    requires BlockOk(b) && Has(s, o, BlockText(b)) && o + |BlockText(b)| <= m <= |s| && n > 0
    ensures var e := o + |BlockText(b)|; var r := Parse(s[..m], e, if b.ToolBlock? then n - 1 else n);
      Parse(s[..m], o, n) == if b.ToolBlock? then Outcome([CallOf(b)] + r.calls, r.pastEnd) else r
  {
    hide Parse, Has, BlockText, BlockOk, Quiet, QuietAt, CallOf;
    HasCut(s, m, o, BlockText(b));
    if b.TextBlock? {
      TextQuiet(s[..m], o, b);
      QuietSkip(s[..m], o, o + |BlockText(b)|, n);
    } else {
      ToolParsed(s[..m], o, b, n);
    }
  }

  lemma {:induction false} BlocksCut(s: string, m: nat, o: nat, bs: seq<Block>, n: nat)
    requires BlocksOk(bs) && Has(s, o, BlocksText(bs)) && o <= m <= |s|
    requires o + |BlocksText(bs)| <= |s| && Quiet(s, o + |BlocksText(bs)|, |s|)
    ensures var r := Parse(s[..m], o, n);
      (r.pastEnd <==> CutInCall(bs, n, m - o)) && (!r.pastEnd ==> r.calls == Upto(Calls(Whole(bs, m - o)), n))
    decreases |bs|
  {
    hide Parse, Has, BlockText, CallOf, Quiet, BlockOk, QuietAt;
    var cut := s[..m];
    if n == 0 {
      ParseDone(cut, o, n);
    } else if bs == [] {
      QuietCut(s, m, o, |s|);
      QuietSkip(cut, o, m, n);
      ParseDone(cut, m, n);
    } else {
      var b, rest := bs[0], if |bs| == 1 then "" else "," + BlocksText(bs[1..]);
      assert BlockOk(b) && BlocksOk(bs[1..]);
      HasSplit(s, o, BlockText(b), rest);
      if m < o + |BlockText(b)| {
        CutBlock(s, m, o, b, n);
      } else {
        WholeBlock(s, m, o, b, n);
        RestCut(s, m, o + |BlockText(b)|, bs, n);
      }
    }
  }

  /** The blocks behind one that lies before the cut. */
  lemma {:induction false} RestCut(s: string, m: nat, e: nat, bs: seq<Block>, n: nat)
    requires bs != [] && BlocksOk(bs[1..]) && e <= m <= |s| && n > 0
    requires var rest := if |bs| == 1 then "" else "," + BlocksText(bs[1..]);
      Has(s, e, rest) && e + |rest| <= |s| && Quiet(s, e + |rest|, |s|)
    ensures var b := bs[0]; var left := if b.ToolBlock? then n - 1 else n; var r := Parse(s[..m], e, left);
      && (r.pastEnd <==> CutInCall(bs[1..], left, m - e - 1))
      && (!r.pastEnd ==> r.calls == Upto(Calls(Whole(bs[1..], m - e - 1)), left))
    decreases |bs|, 0
  {
    hide Parse, Has, BlockText, CallOf, Quiet, BlockOk, QuietAt, BlocksText;
    var left := if bs[0].ToolBlock? then n - 1 else n;
    if m == e {
      ParseDone(s[..m], m, left);
    } else if |bs| == 1 {
      QuietCut(s, m, e, |s|);
      QuietSkip(s[..m], e, m, left);
      ParseDone(s[..m], m, left);
    } else {
      HasSplit(s, e, [','], BlocksText(bs[1..]));
      HasChar(s, e, ',');
      CommaQuiet(s, e);
      QuietCut(s, m, e, e + 1);
      QuietSkip(s[..m], e, e + 1, left);
      BlocksCut(s, m, e + 1, bs[1..], left);
    }
  }

  /** A response cut after m characters: the parser runs over the NUL if and only if the cut lies in one of the first n
      tool_use blocks, behind its first 17 characters. Otherwise it returns exactly the tool_use blocks that are there in
      full. */
  lemma CutResponse(head: string, bs: seq<Block>, tail: string, n: nat, m: nat)
    requires BlocksOk(bs)
    requires var s := head + ("[" + (BlocksText(bs) + ("]" + tail))); m <= |s| && Quiet(s, 0, |head|) && Quiet(s, |s| - |tail|, |s|)
    ensures var r, k := Parse((head + ("[" + (BlocksText(bs) + ("]" + tail))))[..m], 0, n), m - |head| - 1;
      (r.pastEnd <==> CutInCall(bs, n, k)) && (!r.pastEnd ==> r.calls == Upto(Calls(Whole(bs, k)), n))
  {
    hide Parse, Has, BlocksText, QuietAt, Quiet, BlockText;
    var s := head + ("[" + (BlocksText(bs) + ("]" + tail)));
    var cut := s[..m];
    var e := ResponseParts(s, head, bs, tail);
    if m <= |head| {
      QuietCut(s, m, 0, |head|);
      QuietSkip(cut, 0, m, n);
      ParseDone(cut, m, n);
    } else {
      QuietJoin(s, 0, |head|, |head| + 1);
      QuietCut(s, m, 0, |head| + 1);
      QuietSkip(cut, 0, |head| + 1, n);
      BlocksCut(s, m, |head| + 1, bs, n);
    }
  }
}
