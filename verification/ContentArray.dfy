/** claude/json.c: json_extract_content_array, which keeps the content array of a response for the history
    of the conversation. */
module ContentArray {
  import opened Base
  import opened JsonText
  import opened JsonScan
  import opened ToolCalls
  import opened Responses

  /** A "content" key with an array as its value starts at i. */
  predicate ContentAt(s: string, i: nat) {
    Has(s, i, Quoted("content")) && i + 9 <= |s| && BracketAfter(s, SkipWs(s, i + 9))
  }

  predicate BracketAfter(s: string, a: nat) { a < |s| && s[a] == ':' && At(s, SkipWs(s, a + 1)) == '[' }

  /** Where the array of the first such key starts. */
  function ArrayStart(s: string, i: nat): (r: Option<nat>)
    requires i <= |s|
    ensures r.Some? ==> At(s, r.value) == '['
    decreases |s| - i
  {
    if i == |s| then None
    else if ContentAt(s, i) then Some(SkipWs(s, SkipWs(s, i + 9) + 1))
    else ArrayStart(s, i + 1)
  }

  /** find_content_array */
  method FindContentArray(s: string) returns (r: Option<nat>)
    requires CText(s)
    ensures r == ArrayStart(s, 0)
  {
    hide Has;
    var p := 0;
    while p < |s|
      invariant p <= |s| && ArrayStart(s, p) == ArrayStart(s, 0)
    {
      if Has(s, p, Quoted("content")) {
        HasFits(s, p, Quoted("content"));
        var after := SkipSpace(s, p + 9);
        if At(s, after) == ':' {
          after := SkipSpace(s, after + 1);
          if At(s, after) == '[' { return Some(after); }
        }
      }
      p := p + 1;
    }
    return None;
  }

  /** json_extract_content_array: -1 without a content array, else the array up to its bracket, or cut to the
      buffer. An array that is not closed is copied with the NUL that ends it. */
  method ExtractContentArray(s: string, out: array<char>) returns (n: int)
    requires CText(s) && out.Length > 0
    modifies out
    ensures n == -1 <==> ArrayStart(s, 0) == None
    ensures n >= 0 ==>
      var a := ArrayStart(s, 0).value; var q := Scan(s, a + 1, 1, '[', ']');
      n == Min(q - a + 1, out.Length - 1) && out[..n] == (s + "\0")[a..a + n] && out[n] == '\0'
  {
    hide Scan, ArrayStart;
    var start := FindContentArray(s);
    if start == None { return -1; }
    var a := start.value;
    var end := FindMatchingClose(s, a, '[', ']');
    n := end - a + 1;
    if n >= out.Length { n := out.Length - 1; }
    forall i | 0 <= i < n { out[i] := (s + "\0")[a + i]; }
    assert out[..n] == (s + "\0")[a..a + n];
    out[n] := '\0';
  }

  lemma {:induction false} SpacesSkipped(s: string, i: nat, w: string)
    requires Spaces(w) && Has(s, i, w) && !IsSpace(At(s, i + |w|))
    ensures i + |w| <= |s| && SkipWs(s, i) == i + |w|
    decreases |w|
  {
    if w != "" {
      HasAt(s, i, w, 0);
      assert w == w[..1] + w[1..];
      HasSplit(s, i, w[..1], w[1..]);
      SpacesSkipped(s, i + 1, w[1..]);
    }
  }

  lemma {:induction false} FirstContent(s: string, i: nat, k: nat)
    requires i <= k < |s| && ContentAt(s, k) && forall j :: i <= j < k ==> !ContentAt(s, j)
    ensures ArrayStart(s, i) == Some(SkipWs(s, SkipWs(s, k + 9) + 1))
    decreases k - i
  {
    hide ContentAt;
    if i < k { FirstContent(s, i + 1, k); } else { assert ContentAt(s, k); ContentFits(s, k); }
  }

  lemma ContentFits(s: string, k: nat)
    requires ContentAt(s, k)
    ensures k + 9 <= |s| && SkipWs(s, k + 9) < |s|
  {
  }

  /** The first content array of a text, in any spelling and with anything after it, is found and measured
      exactly, so that it is copied whole when it fits the buffer. */
  lemma ContentExact(s: string, k: nat, w1: string, w2: string, v: Json, post: string)
    requires Spaces(w1) && Spaces(w2) && v.Arr? && JsonOk(v)
    requires Has(s, k, Quoted("content") + (w1 + ([':'] + (w2 + Text(v)))))
    requires forall j :: 0 <= j < k ==> !ContentAt(s, j)
    ensures var a := k + 9 + |w1| + 1 + |w2|;
      ArrayStart(s, 0) == Some(a) && a + |Text(v)| <= |s| && s[a..a + |Text(v)|] == Text(v) && Scan(s, a + 1, 1, '[', ']') == a + |Text(v)| - 1
  {
    hide Has, ContentAt, Scan, Text, JsonOk, ArrayStart, SkipWs, Spaces;
    var c := k + 9 + |w1|;
    HasSplit(s, k, Quoted("content"), w1 + ([':'] + (w2 + Text(v))));
    HasSplit(s, k + 9, w1, [':'] + (w2 + Text(v)));
    HasSplit(s, c, [':'], w2 + Text(v));
    HasSplit(s, c + 1, w2, Text(v));
    HasChar(s, c, ':');
    MatchingClose(s, c + 1 + |w2|, v);
    HasIs(s, c + 1 + |w2|, Text(v));
    SpacesSkipped(s, k + 9, w1);
    SpacesSkipped(s, c + 1, w2);
    ContentHere(s, k, c);
    FirstContent(s, 0, k);
  }

  lemma ContentHere(s: string, k: nat, c: nat)
    requires Has(s, k, Quoted("content")) && k + 9 <= |s| && SkipWs(s, k + 9) == c < |s| && s[c] == ':' && At(s, SkipWs(s, c + 1)) == '['
    ensures ContentAt(s, k)
  {
    hide SkipWs;
  }

  function BlockItems(bs: seq<Block>): Items {
    if bs == [] then NoItems else Item(BlockJson(bs[0]), BlockItems(bs[1..]))
  }

  /** The array that is kept is the response's list of blocks. */
  lemma {:induction false} BlocksAreArray(bs: seq<Block>)
    requires BlocksOk(bs)
    ensures ItemsOk(BlockItems(bs)) && ItemsText(BlockItems(bs)) == BlocksText(bs)
  {
    hide BlockOk, JsonOk, Text, BlockText, BlockJson;
    if bs != [] {
      assert BlockOk(bs[0]);
      BlockIsJson(bs[0]);
      forall i | 0 <= i < |bs[1..]| ensures BlockOk(bs[1..][i]) { assert bs[1..][i] == bs[i + 1]; }
      BlocksAreArray(bs[1..]);
    }
  }
}
