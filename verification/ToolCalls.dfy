/** claude/json.c: looking up keys, json_parse_tool_calls and json_extract_content_array. */
module ToolCalls {
  import opened Base
  import opened JsonText
  import opened JsonScan
  import opened JsonEscape

  // ---- searching

  /** strstr: the first place at or after i where the pattern stands, or the end of the string. */
  function Find(s: string, i: nat, pat: string): (j: nat)
    requires i <= |s| && pat != ""
    ensures i <= j <= |s| && (j < |s| ==> Has(s, j, pat) && j + |pat| <= |s|)
    ensures forall k :: i <= k < j ==> !Has(s, k, pat)
    decreases |s| - i
  {
    if i == |s| || Has(s, i, pat) then i else Find(s, i + 1, pat)
  }

  lemma FindIs(s: string, i: nat, pat: string, j: nat)
    requires i <= j <= |s| && pat != "" && (j < |s| ==> Has(s, j, pat))
    requires forall k :: i <= k < j ==> !Has(s, k, pat)
    ensures Find(s, i, pat) == j
  {
    hide Has;
  }

  function SkipWs(s: string, i: nat): (j: nat)
    requires i <= |s|
    ensures i <= j <= |s|
    decreases |s| - i
  {
    if i < |s| && IsSpace(s[i]) then SkipWs(s, i + 1) else i
  }

  /** skip_ws */
  method SkipSpace(s: string, start: nat) returns (i: nat)
    requires start <= |s|
    ensures i == SkipWs(s, start)
  {
    i := start;
    while i < |s| && IsSpace(s[i])
      invariant start <= i <= |s| && SkipWs(s, i) == SkipWs(s, start)
    {
      i := i + 1;
    }
  }

  /** It goes past white space and stops in front of anything else. */
  lemma {:induction false} SkipWsStops(s: string, i: nat)
    requires i <= |s|
    ensures var j := SkipWs(s, i); (forall k :: i <= k < j ==> IsSpace(s[k])) && (j < |s| ==> !IsSpace(s[j]))
    decreases |s| - i
  {
    if i < |s| && IsSpace(s[i]) { SkipWsStops(s, i + 1); }
  }

  /** White space, at most one colon, white space. */
  function AfterColon(s: string, i: nat): (j: nat)
    requires i <= |s|
    ensures i <= j <= |s|
  {
    var a := SkipWs(s, i);
    SkipWs(s, if At(s, a) == ':' then a + 1 else a)
  }

  /** Where a value starts whose colon is set off by any white space, or left out. */
  lemma AfterColonAt(s: string, i: nat, c: nat, j: nat)
    requires i <= c <= |s| && c <= j && (j == c || (c < j <= |s| && s[c] == ':'))
    requires (forall k :: i <= k < c ==> IsSpace(s[k])) && (forall k :: c < k < j ==> IsSpace(s[k]))
    requires j < |s| ==> !IsSpace(s[j]) && (j == c ==> s[j] != ':')
    ensures AfterColon(s, i) == j
  {
    SkipWsStops(s, i);
    var a := SkipWs(s, i);
    assert a == c;
    SkipWsStops(s, if j == c then c else c + 1);
  }

  function SkipWsColons(s: string, i: nat): (j: nat)
    requires i <= |s|
    ensures i <= j <= |s|
    decreases |s| - i
  {
    if i < |s| && (IsSpace(s[i]) || s[i] == ':') then SkipWsColons(s, i + 1) else i
  }

  /** The outcome of looking up a key: where the string value starts, none, or a step over the NUL. */
  datatype Lookup = Found(at: nat) | Missing | PastEnd

  predicate KeyAt(s: string, i: nat, key: string) { Has(s, i, key) && At(s, i + |key|) == '"' }

  function FindKey(s: string, i: nat, key: string): (r: Lookup)
    ensures r.Found? ==> i < r.at <= |s|
    decreases |s| + 1 - i
  {
    if i > |s| then PastEnd
    else if i == |s| then Missing
    else if s[i] != '"' then FindKey(s, i + 1, key)
    else if !KeyAt(s, i + 1, key) then FindKey(s, i + 2, key)
    else
      var k := SkipWsColons(s, i + |key| + 2);
      if At(s, k) == '"' then Found(k + 1) else FindKey(s, k + 1, key)
  }

  /** find_json_string */
  method FindJsonString(s: string, start: nat, key: string) returns (r: Lookup)
    requires CText(s) && start <= |s|
    ensures r == FindKey(s, start, key)
  {
    var json := start;
    while json < |s|
      invariant start <= json && FindKey(s, json, key) == FindKey(s, start, key)
      decreases |s| - json
    {
      if s[json] == '"' {
        json := json + 1;
        if KeyAt(s, json, key) {
          json := json + |key| + 1;
          ghost var from := json;
          while json < |s| && (IsSpace(s[json]) || s[json] == ':')
            invariant from <= json <= |s| && SkipWsColons(s, json) == SkipWsColons(s, from)
            decreases |s| - json
          {
            json := json + 1;
          }
          if At(s, json) == '"' { return Found(json + 1); }
        }
      }
      json := json + 1;
    }
    return if json == |s| then Missing else PastEnd;
  }

  // ---- when the key search steps over the NUL

  /** Where the search looks for a string value behind the key whose quote is at q. */
  function ValueAt(s: string, q: nat, key: string): (v: nat)
    requires q + |key| + 2 <= |s|
    ensures q + |key| + 2 <= v <= |s|
  {
    SkipWsColons(s, q + |key| + 2)
  }

  /** A quote behind which the search from i looks for the key: not one right behind another such quote, and not the
      closing quote of a key it has found. */
  predicate Opens(s: string, i: nat, p: nat, key: string)
    requires i <= p < |s|
    decreases p, 0
  {
    s[p] == '"' &&
    if p > i && s[p - 1] == '"' then !Opens(s, i, p - 1, key)
    else p < i + |key| + 1 || !KeyOpens(s, i, p - |key| - 1, key)
  }

  /** A key that the search from i finds at q. */
  predicate KeyOpens(s: string, i: nat, q: nat, key: string)
    requires i <= q < |s|
    decreases q, 1
  {
    KeyAt(s, q + 1, key) && Opens(s, i, q, key)
  }

  /** Some key that the search finds has a string for its value. */
  ghost predicate HasValue(s: string, i: nat, key: string) {
    exists q :: i <= q < |s| && KeyOpens(s, i, q, key) && At(s, ValueAt(s, q, key)) == '"'
  }

  /** The text ends before the value of a key that the search finds, or in a quote behind which it looks for the key. */
  ghost predicate BreaksOff(s: string, i: nat, key: string) {
    || (exists q :: i <= q < |s| && KeyOpens(s, i, q, key) && ValueAt(s, q, key) == |s|)
    || (i < |s| && Opens(s, i, |s| - 1, key))
  }

  /** Where the search goes on from i, unless it finds a value. */
  function Onward(s: string, i: nat, key: string): (j: nat)
    requires i < |s|
    ensures j > i
  {
    if s[i] != '"' then i + 1 else if !KeyAt(s, i + 1, key) then i + 2 else ValueAt(s, i, key) + 1
  }

  ghost predicate PlainKey(key: string) { key != "" && '"' !in key }

  lemma {:induction false} NoQuoteSkipped(s: string, i: nat, p: nat)
    requires i <= |s| && i <= p < SkipWsColons(s, i)
    ensures s[p] != '"'
    decreases |s| - i
  {
    if i < p { NoQuoteSkipped(s, i + 1, p); }
  }

  /** Up to where the search goes on, no other quote is one behind which it looks. */
  lemma OpensBefore(s: string, i: nat, p: nat, key: string)
    requires PlainKey(key) && i < |s| && i <= p < Onward(s, i, key) && p < |s|
    requires s[i] == '"' && KeyAt(s, i + 1, key) ==> At(s, ValueAt(s, i, key)) != '"'
    ensures Opens(s, i, p, key) <==> p == i && s[i] == '"'
  {
    if p > i && KeyAt(s, i + 1, key) && s[i] == '"' {
      var c := i + |key| + 1;
      if p < c {
        assert s[p] == s[i + 1..i + 1 + |key|][p - i - 1];
      } else if p == c {
        assert s[p - 1] == key[|key| - 1];
        assert KeyOpens(s, i, i, key);
      } else if p < ValueAt(s, i, key) {
        NoQuoteSkipped(s, c + 1, p);
      }
    }
  }

  /** From there on the same quotes count as before. */
  lemma {:induction false} OpensFrom(s: string, i: nat, p: nat, key: string)
    requires PlainKey(key) && i < |s| && Onward(s, i, key) <= p < |s|
    requires s[i] == '"' && KeyAt(s, i + 1, key) ==> At(s, ValueAt(s, i, key)) != '"'
    ensures Opens(s, i, p, key) <==> Opens(s, Onward(s, i, key), p, key)
    decreases p
  {
    var j := Onward(s, i, key);
    if s[p] == '"' {
      if s[p - 1] == '"' {
        if p - 1 < j { OpensBefore(s, i, p - 1, key); } else { OpensFrom(s, i, p - 1, key); }
      } else if p >= i + |key| + 1 {
        var q := p - |key| - 1;
        if q < j { OpensBefore(s, i, q, key); } else { OpensFrom(s, i, q, key); }
      }
    }
  }

  lemma HasValueOnward(s: string, i: nat, key: string)
    requires PlainKey(key) && i < |s|
    requires s[i] == '"' && KeyAt(s, i + 1, key) ==> At(s, ValueAt(s, i, key)) != '"'
    ensures HasValue(s, i, key) <==> HasValue(s, Onward(s, i, key), key)
  {
    hide Opens, Onward;
    var j := Onward(s, i, key);
    forall q | i <= q < |s| && KeyAt(s, q + 1, key) && At(s, ValueAt(s, q, key)) == '"'
      ensures KeyOpens(s, i, q, key) <==> q >= j && KeyOpens(s, j, q, key)
    {
      if q < j { OpensBefore(s, i, q, key); } else { OpensFrom(s, i, q, key); }
    }
  }

  lemma BreaksOffOnward(s: string, i: nat, key: string)
    requires PlainKey(key) && i < |s| && Onward(s, i, key) <= |s|
    requires s[i] == '"' && KeyAt(s, i + 1, key) ==> At(s, ValueAt(s, i, key)) != '"'
    ensures BreaksOff(s, i, key) <==> BreaksOff(s, Onward(s, i, key), key)
  {
    var j, last := Onward(s, i, key), |s| - 1;
    if last < j { OpensBefore(s, i, last, key); } else { OpensFrom(s, i, last, key); }
    hide Opens;
    forall q | i <= q < |s| && KeyAt(s, q + 1, key) && ValueAt(s, q, key) == |s|
      ensures KeyOpens(s, i, q, key) <==> q >= j && KeyOpens(s, j, q, key)
    {
      if q < j { OpensBefore(s, i, q, key); } else { OpensFrom(s, i, q, key); }
    }
  }

  /** The value that is found is that of the first key that has one. */
  ghost predicate FirstValue(s: string, i: nat, q: nat, key: string) {
    && i <= q < |s| && KeyOpens(s, i, q, key) && At(s, ValueAt(s, q, key)) == '"'
    && forall p :: i <= p < q && KeyOpens(s, i, p, key) ==> At(s, ValueAt(s, p, key)) != '"'
  }

  lemma FirstValueOnward(s: string, i: nat, q: nat, key: string)
    requires PlainKey(key) && i < |s| && FirstValue(s, Onward(s, i, key), q, key)
    requires s[i] == '"' && KeyAt(s, i + 1, key) ==> At(s, ValueAt(s, i, key)) != '"'
    ensures FirstValue(s, i, q, key)
  {
    hide Opens, Onward;
    var j := Onward(s, i, key);
    OpensFrom(s, i, q, key);
    forall p | i <= p < q && KeyOpens(s, i, p, key) ensures At(s, ValueAt(s, p, key)) != '"' {
      if p < j { OpensBefore(s, i, p, key); } else { OpensFrom(s, i, p, key); }
    }
  }

  lemma {:induction false} FindKeyFirst(s: string, i: nat, key: string) returns (q: nat)
    requires PlainKey(key) && i <= |s| && FindKey(s, i, key).Found?
    ensures FirstValue(s, i, q, key) && FindKey(s, i, key).at == ValueAt(s, q, key) + 1
    decreases |s| - i
  {
    if s[i] == '"' && KeyAt(s, i + 1, key) && At(s, ValueAt(s, i, key)) == '"' {
      q := i;
    } else {
      q := FindKeyFirst(s, Onward(s, i, key), key);
      FirstValueOnward(s, i, q, key);
    }
  }

  /** The key search finds a value if and only if some key it finds has one, and it steps over the NUL if and only if none
      has and the text breaks off. */
  lemma {:induction false} FindKeyIff(s: string, i: nat, key: string)
    requires PlainKey(key) && i <= |s|
    ensures FindKey(s, i, key).Found? <==> HasValue(s, i, key)
    ensures FindKey(s, i, key) == PastEnd <==> !HasValue(s, i, key) && BreaksOff(s, i, key)
    decreases |s| - i
  {
    if i < |s| {
      var j := Onward(s, i, key);
      if s[i] == '"' && KeyAt(s, i + 1, key) && At(s, ValueAt(s, i, key)) == '"' {
        assert KeyOpens(s, i, i, key);
      } else {
        HasValueOnward(s, i, key);
        if j <= |s| {
          BreaksOffOnward(s, i, key);
          FindKeyIff(s, j, key);
        } else {
          assert Opens(s, i, i, key);
          assert KeyAt(s, i + 1, key) ==> KeyOpens(s, i, i, key);
        }
      }
    }
  }

  /** How many quotes stand in a row before n. */
  function QuoteRun(s: string, i: nat, n: nat): nat
    requires i <= n <= |s|
  {
    if n > i && s[n - 1] == '"' then QuoteRun(s, i, n - 1) + 1 else 0
  }

  lemma QuoteBehind(s: string, i: nat, p: nat, key: string)
    requires i <= p && At(s, p + 1) == '"'
    ensures HasValue(s, i, key) || p < i + |key| + 1 || !KeyOpens(s, i, p - |key| - 1, key)
  {
    if p >= i + |key| + 1 && KeyOpens(s, i, p - |key| - 1, key) {
      assert ValueAt(s, p - |key| - 1, key) == p + 1;
    }
  }

  /** In a row of quotes every other one counts, from the first on unless that closes a key. */
  lemma {:induction false} RunOpens(s: string, i: nat, p: nat, key: string)
    requires PlainKey(key) && i <= p < |s| && s[p] == '"' && !HasValue(s, i, key)
    ensures Opens(s, i, p, key) <==>
            QuoteRun(s, i, p + 1) % 2 == 1 && !(QuoteRun(s, i, p + 1) == 1 && p >= i + |key| + 1 && KeyOpens(s, i, p - |key| - 1, key))
    decreases p
  {
    hide KeyOpens, HasValue;
    if p > i && s[p - 1] == '"' {
      RunOpens(s, i, p - 1, key);
      QuoteBehind(s, i, p - 1, key);
    }
  }

  /** So in a text that does not end in white space or a colon the search steps over the NUL if and only if it finds no
      value and the text ends in an odd number of quotes. */
  lemma OddQuotes(s: string, i: nat, key: string)
    requires PlainKey(key) && i < |s| && s[|s| - 1] != ':' && !IsSpace(s[|s| - 1])
    ensures FindKey(s, i, key) == PastEnd <==> !FindKey(s, i, key).Found? && QuoteRun(s, i, |s|) % 2 == 1
  {
    var last := |s| - 1;
    FindKeyIff(s, i, key);
    if !HasValue(s, i, key) {
      if s[last] == '"' { RunOpens(s, i, last, key); }
      forall q | i <= q < |s| && KeyOpens(s, i, q, key) && ValueAt(s, q, key) == |s|
        ensures q == last - |key| - 1 && QuoteRun(s, i, |s|) == 1
      {
        if q + |key| + 2 < |s| { ColonsEnd(s, q + |key| + 2); }
        assert s[last - 1] == key[|key| - 1];
      }
      if last >= i + |key| + 1 && s[last] == '"' && KeyOpens(s, i, last - |key| - 1, key) {
        assert ValueAt(s, last - |key| - 1, key) == |s|;
      }
    }
  }

  /** Two texts on which the search steps over the NUL: a quote that nothing follows, and a key that only a colon follows. */
  lemma SomeOverrun()
    ensures FindKey("\"", 0, "id") == PastEnd && FindKey("\"id\":", 0, "id") == PastEnd
  {
    var s := "\"id\":";
    assert s[1..3] == "id" && KeyAt(s, 1, "id");
    assert SkipWsColons(s, 5) == 5 && SkipWsColons(s, 4) == 5;
  }

  /** The search steps over the NUL only in a text that breaks off in a quote or after a key. */
  lemma {:induction false} NoOverrun(s: string, i: nat, key: string)
    requires i <= |s| && s != "" && s[|s| - 1] != '"' && s[|s| - 1] != ':' && !IsSpace(s[|s| - 1])
    ensures FindKey(s, i, key) != PastEnd
    decreases |s| - i
  {
    if i < |s| {
      if s[i] != '"' {
        NoOverrun(s, i + 1, key);
      } else if !KeyAt(s, i + 1, key) {
        NoOverrun(s, i + 2, key);
      } else {
        var k := SkipWsColons(s, i + |key| + 2);
        ColonsEnd(s, i + |key| + 2);
        if At(s, k) != '"' { NoOverrun(s, k + 1, key); }
      }
    }
  }

  lemma {:induction false} ColonsEnd(s: string, i: nat)
    requires i < |s| && s[|s| - 1] != ':' && !IsSpace(s[|s| - 1])
    ensures SkipWsColons(s, i) < |s|
    decreases |s| - i
  {
    if i + 1 < |s| { ColonsEnd(s, i + 1); }
  }

  // ---- tool calls

  /** A word as a key is written. */
  function Quoted(key: string): (q: string)
    ensures |q| == |key| + 2
  {
    "\"" + key + "\""
  }

  const TYPE: string := Quoted("type")
  const INPUT: string := Quoted("input")

  /** A struct tool_call; a field that was not found keeps what the struct held before. */
  datatype Call = Call(id: Option<string>, name: Option<string>, input: Option<string>)

  function Cut(t: string, n: nat): string { t[..Min(|t|, n)] }

  predicate IsToolUse(s: string, t: nat)
    requires t + 6 <= |s|
  {
    var a := AfterColon(s, t + 6);
    At(s, a) == '"' && Has(s, a + 1, "tool_use")
  }

  /** The nearest opening brace at or before i, or the start of the text. */
  function Back(s: string, i: nat): (o: nat)
    ensures o <= i
  {
    if i > 0 && At(s, i) != '{' then Back(s, i - 1) else i
  }

  lemma {:induction false} BackStops(s: string, i: nat)
    ensures var o := Back(s, i); (o == 0 || At(s, o) == '{') && forall k :: o < k <= i ==> At(s, k) != '{'
  {
    if i > 0 && At(s, i) != '{' { BackStops(s, i - 1); }
  }

  function Field(s: string, f: Lookup): Option<string>
    requires f.Found? ==> f.at <= |s|
  {
    if f.Found? then Some(Cut(Extract(s, f.at), 63)) else None
  }

  function ReadInput(s: string, o: nat, end: nat): Option<string>
    requires o <= |s|
  {
    var k := Find(s, o, INPUT);
    if k == |s| || k >= end then None
    else
      var a := AfterColon(s, k + 7);
      if At(s, a) != '{' then None
      else Some(Cut(s[a..Min(Scan(s, a + 1, 1, '{', '}') + 1, |s|)], 4095))
  }

  function ReadCall(s: string, o: nat, end: nat): Call
    requires o <= |s|
  {
    Call(Field(s, FindKey(s, o, "id")), Field(s, FindKey(s, o, "name")), ReadInput(s, o, end))
  }

  predicate Overruns(s: string, o: nat) { FindKey(s, o, "id") == PastEnd || FindKey(s, o, "name") == PastEnd }

  /** The calls found, and whether the reading ran over the NUL. */
  datatype Outcome = Outcome(calls: seq<Call>, pastEnd: bool)

  /** What json_parse_tool_calls finds from p on, for n more calls. */
  function Parse(s: string, p: nat, n: nat): Outcome
    decreases n, |s| + 1 - p
  {
    if p > |s| then Outcome([], true)
    else if p == |s| || n == 0 then Outcome([], false)
    else
      var t := Find(s, p, TYPE);
      if t == |s| then Outcome([], false)
      else
        var o := Back(s, t);
        if IsToolUse(s, t) && At(s, o) == '{' then
          if Overruns(s, o) then Outcome([], true)
          else
            var end := Scan(s, o + 1, 1, '{', '}');
            var rest := Parse(s, end + 1, n - 1);
            Outcome([ReadCall(s, o, end)] + rest.calls, rest.pastEnd)
        else Parse(s, t + 6, n)
  }

  /** The objects that are taken for tool calls from p on, for n more calls: the places of their opening braces. */
  function Opened(s: string, p: nat, n: nat): seq<nat>
    decreases n, |s| + 1 - p
  {
    if p >= |s| || n == 0 then []
    else
      var t := Find(s, p, TYPE);
      if t == |s| then []
      else
        var o := Back(s, t);
        if !(IsToolUse(s, t) && At(s, o) == '{') then Opened(s, t + 6, n)
        else if Overruns(s, o) then [o]
        else [o] + Opened(s, Scan(s, o + 1, 1, '{', '}') + 1, n - 1)
  }

  /** The text ends before the object is closed. */
  predicate Unclosed(s: string, o: nat) { o < |s| && Scan(s, o + 1, 1, '{', '}') == |s| }

  /** A call as the array holds it: what was found, and in the other fields what the caller had there. */
  function Over(was: Call, c: Call): Call {
    Call(if c.id.Some? then c.id else was.id, if c.name.Some? then c.name else was.name, if c.input.Some? then c.input else was.input)
  }

  /** json_parse_tool_calls. pastEnd is set where the C code would read behind the NUL, and then nothing more is said. */
  method ParseToolCalls(s: string, calls: array<Call>, maxCalls: nat) returns (count: nat, pastEnd: bool)
    requires CText(s) && maxCalls <= calls.Length
    modifies calls
    ensures pastEnd == Parse(s, 0, maxCalls).pastEnd
    ensures count <= maxCalls && (!pastEnd ==> count == |Parse(s, 0, maxCalls).calls|)
    ensures !pastEnd ==> forall i :: 0 <= i < count ==> calls[i] == Over(old(calls[i]), Parse(s, 0, maxCalls).calls[i])
    ensures !pastEnd ==> forall i :: count <= i < calls.Length ==> calls[i] == old(calls[i])
  {
    hide Find, Scan, FindKey, Back, IsToolUse, Extract, AfterColon, Parse, Has, Overruns, ReadCall, Over;
    count := 0;
    var p: nat := 0;
    ghost var all := Parse(s, 0, maxCalls);
    ghost var rest := all;
    while p < |s| && count < maxCalls
      invariant count <= maxCalls && rest == Parse(s, p, maxCalls - count)
      invariant |all.calls| == count + |rest.calls| && all.calls[count..] == rest.calls && all.pastEnd == rest.pastEnd
      invariant forall i :: 0 <= i < count ==> calls[i] == Over(old(calls[i]), all.calls[i])
      invariant forall i :: count <= i < calls.Length ==> calls[i] == old(calls[i])
      decreases maxCalls - count, |s| - p
    {
      var typePos := Find(s, p, TYPE);
      if typePos == |s| {
        ParseNone(s, p, maxCalls - count);
        return count, false;
      }
      var tool := CheckToolUse(s, typePos);
      if tool {
        var objStart := SearchBack(s, typePos);
        if s[objStart] == '{' {
          var objEnd := FindMatchingClose(s, objStart, '{', '}');
          ParseCall(s, p, maxCalls - count, typePos, objStart, objEnd);
          var over := FillCall(s, objStart, objEnd, calls, count);
          if over { return count, true; }
          assert all.calls[count] == rest.calls[0];
          rest := Parse(s, objEnd + 1, maxCalls - count - 1);
          assert all.calls[count + 1..] == all.calls[count..][1..];
          count := count + 1;
          p := objEnd + 1;
          continue;
        }
      }
      ParseSkip(s, p, maxCalls - count, typePos);
      p := typePos + 6;
    }
    ParseDone(s, p, maxCalls - count);
    pastEnd := p > |s|;
  }

  lemma ParseDone(s: string, p: nat, n: nat)
    requires p >= |s| || n == 0
    ensures Parse(s, p, n).calls == [] && Parse(s, p, n).pastEnd == (p > |s|)
  {
  }

  lemma ParseNone(s: string, p: nat, n: nat)
    requires p < |s| && n > 0 && Find(s, p, TYPE) == |s|
    ensures Parse(s, p, n) == Outcome([], false)
  {
    hide Find;
  }

  lemma ParseSkip(s: string, p: nat, n: nat, t: nat)
    requires p < |s| && n > 0 && t == Find(s, p, TYPE) < |s| && !(IsToolUse(s, t) && At(s, Back(s, t)) == '{')
    ensures Parse(s, p, n) == Parse(s, t + 6, n)
  {
    hide Find, Back, IsToolUse, Scan, ReadCall, Overruns;
  }

  lemma ParseCall(s: string, p: nat, n: nat, t: nat, o: nat, end: nat)
    requires p < |s| && n > 0 && t == Find(s, p, TYPE) < |s| && IsToolUse(s, t) && o == Back(s, t) && At(s, o) == '{'
    requires end == Scan(s, o + 1, 1, '{', '}')
    ensures Overruns(s, o) ==> Parse(s, p, n) == Outcome([], true)
    ensures !Overruns(s, o) ==>
      Parse(s, p, n) == Outcome([ReadCall(s, o, end)] + Parse(s, end + 1, n - 1).calls, Parse(s, end + 1, n - 1).pastEnd)
  {
    hide Find, Back, IsToolUse, Scan, ReadCall, Overruns;
  }

  lemma OpenedNext(s: string, p: nat, n: nat, t: nat, o: nat)
    requires p < |s| && n > 0 && t == Find(s, p, TYPE) < |s| && o == Back(s, t)
    ensures !(IsToolUse(s, t) && At(s, o) == '{') ==> Opened(s, p, n) == Opened(s, t + 6, n)
    ensures IsToolUse(s, t) && At(s, o) == '{' ==>
              Opened(s, p, n) == if Overruns(s, o) then [o] else [o] + Opened(s, Scan(s, o + 1, 1, '{', '}') + 1, n - 1)
  {
    hide Find, Back, IsToolUse, Scan, Overruns;
  }

  /** Some of these objects is not closed, or its key search steps over the NUL. */
  ghost predicate SomeLost(s: string, os: seq<nat>) { exists i :: 0 <= i < |os| && (Overruns(s, os[i]) || Unclosed(s, os[i])) }

  lemma LostSplit(s: string, o: nat, os: seq<nat>)
    ensures SomeLost(s, [o] + os) <==> Overruns(s, o) || Unclosed(s, o) || SomeLost(s, os)
    ensures !SomeLost(s, [])
  {
    hide Overruns, Unclosed;
    var all := [o] + os;
    assert all[0] == o && forall i :: 0 <= i < |os| ==> all[i + 1] == os[i];
    if SomeLost(s, all) {
      var i :| 0 <= i < |all| && (Overruns(s, all[i]) || Unclosed(s, all[i]));
      if i > 0 { assert all[i] == os[i - 1]; }
    }
  }

  /** The reading runs over the NUL if and only if an object taken for a tool call is lost in that way. */
  lemma {:induction false} PastEndIff(s: string, p: nat, n: nat)
    requires p <= |s|
    ensures Parse(s, p, n).pastEnd <==> SomeLost(s, Opened(s, p, n))
    decreases n, |s| - p
  {
    hide Find, Back, IsToolUse, Scan, ReadCall, Overruns, Parse, Opened, SomeLost;
    if p == |s| || n == 0 {
      ParseDone(s, p, n);
      OpenedNone(s, p, n);
    } else {
      var t := Find(s, p, TYPE);
      if t == |s| {
        ParseNone(s, p, n);
        OpenedNone(s, p, n);
      } else {
        var o := Back(s, t);
        OpenedNext(s, p, n, t, o);
        if IsToolUse(s, t) && At(s, o) == '{' {
          ClosedOn(s, p, n, t, o);
        } else {
          ParseSkip(s, p, n, t);
          PastEndIff(s, t + 6, n);
        }
      }
    }
  }

  lemma OpenedNone(s: string, p: nat, n: nat)
    requires p >= |s| || n == 0 || Find(s, p, TYPE) == |s|
    ensures !SomeLost(s, Opened(s, p, n))
  {
    hide Find;
  }

  lemma {:induction false} ClosedOn(s: string, p: nat, n: nat, t: nat, o: nat)
    requires p < |s| && n > 0 && t == Find(s, p, TYPE) < |s| && IsToolUse(s, t) && o == Back(s, t) && At(s, o) == '{'
    requires Opened(s, p, n) == if Overruns(s, o) then [o] else [o] + Opened(s, Scan(s, o + 1, 1, '{', '}') + 1, n - 1)
    ensures Parse(s, p, n).pastEnd <==> SomeLost(s, Opened(s, p, n))
    decreases n, 0
  {
    hide Find, Back, IsToolUse, Scan, ReadCall, Overruns, Parse, Opened, SomeLost;
    var end := Scan(s, o + 1, 1, '{', '}');
    ParseCall(s, p, n, t, o, end);
    LostSplit(s, o, if Overruns(s, o) then [] else Opened(s, end + 1, n - 1));
    assert [o] + [] == [o];
    if !Overruns(s, o) {
      if end < |s| { PastEndIff(s, end + 1, n - 1); } else { ParseDone(s, end + 1, n - 1); OpenedNone(s, end + 1, n - 1); }
    }
  }

  method CheckToolUse(s: string, typePos: nat) returns (b: bool)
    requires typePos + 6 <= |s|
    ensures b == IsToolUse(s, typePos)
  {
    var after := SkipSpace(s, typePos + 6);
    if At(s, after) == ':' { after := after + 1; }
    after := SkipSpace(s, after);
    b := At(s, after) == '"' && Has(s, after + 1, "tool_use");
  }

  method SearchBack(s: string, i: nat) returns (o: nat)
    requires i < |s|
    ensures o == Back(s, i) < |s|
  {
    o := i;
    while o > 0 && s[o] != '{'
      invariant o <= i && Back(s, o) == Back(s, i)
    {
      o := o - 1;
    }
  }

  /** The fields of one call. */
  method FillCall(s: string, o: nat, end: nat, calls: array<Call>, k: nat) returns (over: bool)
    requires CText(s) && o < |s| && o < end && k < calls.Length
    modifies calls
    ensures over == Overruns(s, o)
    ensures !over ==> calls[k] == Over(old(calls[k]), ReadCall(s, o, end))
    ensures forall i :: 0 <= i < calls.Length && i != k ==> calls[i] == old(calls[i])
  {
    hide Find, Scan, FindKey, Extract, AfterColon, ReadInput;
    var idVal := FindJsonString(s, o, "id");
    var nameVal := FindJsonString(s, o, "name");
    if idVal == PastEnd || nameVal == PastEnd { return true; }
    over := false;
    var field := CopyField(s, idVal);
    if field.Some? { calls[k] := calls[k].(id := field); }
    field := CopyField(s, nameVal);
    if field.Some? { calls[k] := calls[k].(name := field); }
    var input := CopyInput(s, o, end);
    if input.Some? { calls[k] := calls[k].(input := input); }
  }

  /** A string value through its 64-byte buffer. */
  method CopyField(s: string, val: Lookup) returns (field: Option<string>)
    requires CText(s) && (val.Found? ==> val.at <= |s|)
    ensures field == Field(s, val)
  {
    hide Extract;
    if !val.Found? { return None; }
    var buf := new char[64];
    var n := ExtractJsonString(s, val.at, buf);
    return Some(buf[..n]);
  }

  /** The input object, copied by brace matching into 4096 bytes. */
  method CopyInput(s: string, o: nat, end: nat) returns (input: Option<string>)
    requires CText(s) && o < |s|
    ensures input == ReadInput(s, o, end)
  {
    hide Find, Scan, SkipWs, Cut, CText;
    input := None;
    var inputKey := Find(s, o, INPUT);
    if inputKey < |s| && inputKey < end {
      var start := SkipSpace(s, inputKey + 7);
      if At(s, start) == ':' { start := start + 1; }
      start := SkipSpace(s, start);
      if At(s, start) == '{' {
        var inputEnd := FindMatchingClose(s, start, '{', '}');
        var len := inputEnd - start + 1;
        if len >= 4096 { len := 4095; }
        input := Some(s[start..Min(start + len, |s|)]);
        CutSlice(s, start, Min(inputEnd + 1, |s|), 4095);
      }
    }
  }

  lemma CutSlice(s: string, a: nat, e: nat, n: nat)
    requires a <= e <= |s|
    ensures Cut(s[a..e], n) == s[a..Min(a + n, e)]
  {
  }
}
