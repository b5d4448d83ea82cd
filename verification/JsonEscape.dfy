/** claude/json.c: json_escape_string and extract_json_string, and how they undo each other. */
module JsonEscape {
  import opened Base
  import opened JsonText
  import opened JsonScan

  // ---- escaping

  predicate Dropped(c: char) { c < ' ' && c != '\n' && c != '\r' && c != '\t' }

  function EscapeUnit(c: char): Unit {
    match c
    case '"' => Short('"')
    case '\\' => Short('\\')
    case '\n' => Short('n')
    case '\r' => Short('r')
    case '\t' => Short('t')
    case _ => Plain(c)
  }

  /** The units json_escape_string writes for a string. */
  function EscapeRaw(x: string): Raw {
    if x == "" then [] else (if Dropped(x[0]) then [] else [EscapeUnit(x[0])]) + EscapeRaw(x[1..])
  }

  function Escape(x: string): string { RawText(EscapeRaw(x)) }

  /** The string without the control characters the writer leaves out. */
  function Kept(x: string): string {
    if x == "" then "" else (if Dropped(x[0]) then "" else [x[0]]) + Kept(x[1..])
  }

  lemma EscapeUnitMeans(c: char)
    requires !Dropped(c)
    ensures UnitOk(EscapeUnit(c)) && UnitMeaning(EscapeUnit(c)) == [c] && Understood(EscapeUnit(c))
  {
  }

  /** What is written between the quotes is JSON, and means the string. */
  lemma {:induction false} EscapeIsJson(x: string)
    ensures RawOk(EscapeRaw(x)) && Meaning(EscapeRaw(x)) == Kept(x)
  {
    hide UnitMeaning, EscapeUnit, UnitOk, Dropped;
    if x != "" {
      EscapeIsJson(x[1..]);
      var rest := EscapeRaw(x[1..]);
      if !Dropped(x[0]) {
        EscapeUnitMeans(x[0]);
        assert ([EscapeUnit(x[0])] + rest)[1..] == rest;
      } else {
        assert [] + rest == rest && "" + Kept(x[1..]) == Kept(x[1..]);
      }
    }
  }

  lemma {:induction false} RawTextAppend(a: Raw, b: Raw)
    ensures RawText(a + b) == RawText(a) + RawText(b)
  {
    if a == [] {
      assert a + b == b;
    } else {
      assert (a + b)[1..] == a[1..] + b;
      RawTextAppend(a[1..], b);
    }
  }

  lemma {:induction false} EscapeRawAppend(a: string, b: string)
    ensures EscapeRaw(a + b) == EscapeRaw(a) + EscapeRaw(b)
  {
    if a == "" {
      assert a + b == b;
    } else {
      assert (a + b)[1..] == a[1..] + b;
      EscapeRawAppend(a[1..], b);
    }
  }

  lemma EscapeAppend(a: string, b: string)
    ensures Escape(a + b) == Escape(a) + Escape(b)
  {
    EscapeRawAppend(a, b);
    RawTextAppend(EscapeRaw(a), EscapeRaw(b));
  }

  lemma EscapeOne(c: char)
    ensures Escape([c]) == if Dropped(c) then "" else UnitText(EscapeUnit(c))
  {
    assert [c][1..] == "";
    assert EscapeRaw("") == [] && RawText([]) == "";
    assert EscapeRaw([c]) == (if Dropped(c) then [] else [EscapeUnit(c)]) + EscapeRaw("");
    if !Dropped(c) {
      var one := [EscapeUnit(c)];
      assert EscapeRaw([c]) == one && one[1..] == [];
      assert RawText(one) == UnitText(one[0]) + RawText([]);
    }
  }

  /** json_escape_string: the output is the escape of the first k characters, whole, where k is the
      first place at which fewer than two bytes would be left before the NUL, or the end. */
  method EscapeString(input: string, out: array<char>) returns (pos: nat, ghost k: nat)
    requires CText(input) && out.Length > 0
    modifies out
    ensures pos < out.Length && out[pos] == '\0'
    ensures k <= |input| && out[..pos] == Escape(input[..k])
    ensures k == |input| || pos >= out.Length - 2
    ensures forall j :: 0 <= j < k ==> |Escape(input[..j])| < out.Length - 2
    ensures |Escape(input)| <= out.Length - 2 ==> out[..pos] == Escape(input)
  {
    hide Escape;
    pos, k := 0, 0;
    var i := 0;
    assert Escape(input[..0]) == "" by { EscapeNothing(input[..0]); }
    while i < |input| && pos < out.Length - 2
      invariant i <= |input| && k == i && pos < out.Length
      invariant out[..pos] == Escape(input[..k])
      invariant forall j :: 0 <= j < k ==> |Escape(input[..j])| < out.Length - 2
      decreases |input| - i
    {
      ghost var before := out[..pos];
      match input[i] {
      case '"' =>
        out[pos] := '\\';
        out[pos + 1] := '"';
        pos := pos + 2;
      case '\\' =>
        out[pos] := '\\';
        out[pos + 1] := '\\';
        pos := pos + 2;
      case '\n' =>
        out[pos] := '\\';
        out[pos + 1] := 'n';
        pos := pos + 2;
      case '\r' =>
        out[pos] := '\\';
        out[pos + 1] := 'r';
        pos := pos + 2;
      case '\t' =>
        out[pos] := '\\';
        out[pos + 1] := 't';
        pos := pos + 2;
      case c =>
        if c >= ' ' {
          out[pos] := c;
          pos := pos + 1;
        }
      }
      NextEscape(input, i, before);
      assert out[..pos] == before + Escape([input[i]]) by { EscapeOne(input[i]); }
      i := i + 1;
      k := i;
    }
    WholeEscape(input, k, out.Length - 2);
    out[pos] := '\0';
  }

  lemma EscapeNothing(x: string)
    requires x == ""
    ensures Escape(x) == ""
  {
  }

  lemma NextEscape(input: string, i: nat, before: string)
    requires i < |input| && before == Escape(input[..i])
    ensures Escape(input[..i + 1]) == before + Escape([input[i]])
  {
    assert input[..i + 1] == input[..i] + [input[i]];
    EscapeAppend(input[..i], [input[i]]);
  }

  lemma WholeEscape(input: string, k: nat, room: int)
    requires k <= |input| && (k == |input| || |Escape(input[..k])| >= room)
    ensures |Escape(input)| <= room ==> Escape(input) == Escape(input[..k])
  {
    assert input == input[..k] + input[k..];
    EscapeAppend(input[..k], input[k..]);
  }

  // ---- extracting

  function Unescaped(c: char): char {
    match c
    case 'n' => '\n'
    case 'r' => '\r'
    case 't' => '\t'
    case _ => c
  }

  /** What the reader makes of the characters from i to the closing quote. */
  function Extract(s: string, i: nat): string
    requires i <= |s|
    decreases |s| - i
  {
    if i == |s| || s[i] == '"' then ""
    else if s[i] == '\\' && i + 1 < |s| then [Unescaped(s[i + 1])] + Extract(s, i + 2)
    else [s[i]] + Extract(s, i + 1)
  }

  /** One turn of the extracting loop: the character read, and where the next one starts. */
  method ReadChar(s: string, p: nat) returns (c: char, next: nat)
    requires p < |s|
    ensures if s[p] == '\\' && p + 1 < |s| then c == Unescaped(s[p + 1]) && next == p + 2 else c == s[p] && next == p + 1
  {
    if s[p] == '\\' && p + 1 < |s| {
      match s[p + 1] {
      case '"' => c := '"';
      case '\\' => c := '\\';
      case 'n' => c := '\n';
      case 'r' => c := '\r';
      case 't' => c := '\t';
      case '/' => c := '/';
      case other => c := other;
      }
      next := p + 2;
    } else {
      c, next := s[p], p + 1;
    }
  }

  /** extract_json_string */
  method ExtractJsonString(s: string, start: nat, out: array<char>) returns (pos: nat)
    requires CText(s) && start <= |s| && out.Length > 0
    modifies out
    ensures pos == Min(|Extract(s, start)|, out.Length - 1) && out[pos] == '\0'
    ensures out[..pos] == Extract(s, start)[..pos]
  {
    hide Extract, Unescaped;
    pos := 0;
    var p := start;
    assert "" + Extract(s, start) == Extract(s, start);
    while p < |s| && s[p] != '"' && pos < out.Length - 1
      invariant start <= p <= |s| && pos < out.Length
      invariant out[..pos] + Extract(s, p) == Extract(s, start)
      decreases |s| - p
    {
      ghost var before := out[..pos];
      ExtractStep(s, p);
      var c, next := ReadChar(s, p);
      out[pos] := c;
      pos := pos + 1;
      p := next;
      Append(before, c, Extract(s, p));
      assert out[..pos] == before + [c];
    }
    if pos < out.Length - 1 { ExtractStop(s, p); }
    out[pos] := '\0';
  }

  lemma Append(before: string, c: char, rest: string)
    ensures before + ([c] + rest) == (before + [c]) + rest
  {
  }

  lemma ExtractStep(s: string, p: nat)
    requires p < |s| && s[p] != '"'
    ensures Extract(s, p) == if s[p] == '\\' && p + 1 < |s| then [Unescaped(s[p + 1])] + Extract(s, p + 2) else [s[p]] + Extract(s, p + 1)
  {
  }

  lemma ExtractStop(s: string, p: nat)
    requires p <= |s| && (p < |s| ==> s[p] == '"')
    ensures Extract(s, p) == ""
  {
  }

  /** What the reader makes of one unit: it knows no \\b, \\f or \\u. */
  function UnitOut(u: Unit): string {
    match u
    case Plain(c) => [c]
    case Short(c) => [Unescaped(c)]
    case Hex(digits) => "u" + digits
    case Pair(high, low) => "u" + high + "u" + low
  }

  ghost function Out(raw: Raw): string {
    if raw == [] then "" else UnitOut(raw[0]) + Out(raw[1..])
  }

  lemma {:induction false} ExtractPlain(s: string, i: nat, t: string)
    requires Has(s, i, t) && forall k :: 0 <= k < |t| ==> t[k] != '"' && t[k] != '\\'
    ensures Extract(s, i) == t + Extract(s, i + |t|)
    decreases |t|
  {
    hide Has, Extract;
    HasFits(s, i, t);
    if t == "" {
      assert t + Extract(s, i + |t|) == Extract(s, i);
    } else {
      HasAt(s, i, t, 0);
      var u, rest := t[1..], Extract(s, i + |t|);
      assert t == t[..1] + u;
      HasSplit(s, i, t[..1], u);
      ExtractChar(s, i);
      ExtractPlain(s, i + 1, u);
      assert [t[0]] + (u + rest) == ([t[0]] + u) + rest;
      assert [t[0]] + u == t;
    }
  }

  lemma ExtractChar(s: string, i: nat)
    requires i < |s| && s[i] != '"' && s[i] != '\\'
    ensures Extract(s, i) == [s[i]] + Extract(s, i + 1)
  {
  }

  lemma ExtractHex(s: string, i: nat, digits: string)
    requires HexOk(digits) && Has(s, i, "\\u" + digits)
    ensures Extract(s, i) == "u" + digits + Extract(s, i + 6)
  {
    HasAt(s, i, "\\u" + digits, 0);
    HasAt(s, i, "\\u" + digits, 1);
    HasSplit(s, i, "\\u", digits);
    ExtractPlain(s, i + 2, digits);
  }

  lemma ExtractPair(s: string, i: nat, high: string, low: string)
    requires HexOk(high) && HexOk(low) && Has(s, i, "\\u" + high + "\\u" + low)
    ensures i + 12 <= |s| && Extract(s, i) == "u" + high + "u" + low + Extract(s, i + 12)
  {
    hide Extract, Has;
    assert "\\u" + high + "\\u" + low == ("\\u" + high) + ("\\u" + low);
    HasSplit(s, i, "\\u" + high, "\\u" + low);
    HasFits(s, i + 6, "\\u" + low);
    ExtractHex(s, i, high);
    ExtractHex(s, i + 6, low);
    assert "u" + high + ("u" + low + Extract(s, i + 12)) == "u" + high + "u" + low + Extract(s, i + 12);
  }

  lemma ExtractShort(s: string, i: nat, c: char)
    requires Has(s, i, ['\\', c])
    ensures i + 2 <= |s| && Extract(s, i) == [Unescaped(c)] + Extract(s, i + 2)
  {
    HasAt(s, i, ['\\', c], 0);
    HasAt(s, i, ['\\', c], 1);
  }

  lemma ExtractUnit(s: string, i: nat, u: Unit)
    requires UnitOk(u) && Has(s, i, UnitText(u))
    ensures Extract(s, i) == UnitOut(u) + Extract(s, i + |UnitText(u)|)
  {
    hide Extract, Has;
    match u
    case Plain(c) => ExtractPlain(s, i, [c]);
    case Short(c) => ExtractShort(s, i, c);
    case Hex(digits) => ExtractHex(s, i, digits);
    case Pair(high, low) => ExtractPair(s, i, high, low);
  }

  lemma ExtractEnd(s: string, i: nat)
    requires At(s, i) == '"'
    ensures i < |s| && Extract(s, i) == ""
  {
  }

  lemma {:induction false} ExtractRaw(s: string, i: nat, raw: Raw)
    requires RawOk(raw) && Has(s, i, RawText(raw)) && At(s, i + |RawText(raw)|) == '"'
    ensures Extract(s, i) == Out(raw)
    decreases |raw|
  {
    hide Has, Extract, UnitText, UnitOut, UnitOk, At;
    if raw == [] {
      ExtractEnd(s, i);
    } else {
      assert UnitOk(raw[0]);
      HasSplit(s, i, UnitText(raw[0]), RawText(raw[1..]));
      ExtractUnit(s, i, raw[0]);
      ExtractRaw(s, i + |UnitText(raw[0])|, raw[1..]);
    }
  }

  /** The escapes the reader understands. */
  predicate Understood(u: Unit) { u.Plain? || (u.Short? && u.c != 'b' && u.c != 'f') }

  lemma {:induction false} OutMeaning(raw: Raw)
    requires RawOk(raw)
    ensures |Out(raw)| >= |Meaning(raw)|
    ensures Out(raw) == Meaning(raw) <==> forall i :: 0 <= i < |raw| ==> Understood(raw[i])
  {
    hide UnitMeaning, UnitOut, Understood, UnitOk;
    if raw != [] {
      var u := raw[0];
      assert UnitOk(u);
      UnitLengths(u);
      OutMeaning(raw[1..]);
      assert (forall i :: 0 <= i < |raw| ==> Understood(raw[i])) <==>
             Understood(u) && (forall i :: 0 <= i < |raw[1..]| ==> Understood(raw[1..][i])) by {
        if forall i :: 0 <= i < |raw[1..]| ==> Understood(raw[1..][i]) {
          forall i | 1 <= i < |raw| ensures Understood(raw[i]) { assert raw[i] == raw[1..][i - 1]; }
        }
      }
      if Out(raw) == Meaning(raw) {
        SameSplit(UnitOut(u), Out(raw[1..]), UnitMeaning(u), Meaning(raw[1..]));
      }
    }
  }

  lemma SameSplit(a: string, b: string, c: string, d: string)
    requires |a| >= |c| && |b| >= |d| && a + b == c + d
    ensures a == c && b == d
  {
    assert |a + b| == |c + d|;
    assert a == (a + b)[..|a|] && c == (c + d)[..|a|];
    assert b == (a + b)[|a|..] && d == (c + d)[|a|..];
  }

  lemma UnitLengths(u: Unit)
    requires UnitOk(u)
    ensures |UnitOut(u)| >= |UnitMeaning(u)| && (UnitOut(u) == UnitMeaning(u) <==> Understood(u))
  {
    match u
    case Plain(c) =>
    case Short(c) => assert [Unescaped(c)][0] == Unescaped(c) && [ShortMeaning(c)][0] == ShortMeaning(c);
    case Hex(digits) => assert |Utf8(CodeUnit(digits))| <= 3;
    case Pair(high, low) => assert |Utf8Pair(CodeUnit(high), CodeUnit(low))| == 4;
  }

  /** The reader gives back what a literal means exactly when it contains no \\b, \\f or \\u escape. */
  lemma ExtractMeans(s: string, i: nat, raw: Raw)
    requires RawOk(raw) && Has(s, i, RawText(raw) + "\"")
    ensures i <= |s| && (Extract(s, i) == Meaning(raw) <==> forall k :: 0 <= k < |raw| ==> Understood(raw[k]))
  {
    hide Has, Understood;
    HasSplit(s, i, RawText(raw), ['"']);
    HasChar(s, i + |RawText(raw)|, '"');
    ExtractRaw(s, i, raw);
    OutMeaning(raw);
  }

  lemma {:induction false} EscapeUnderstood(x: string)
    ensures forall k :: 0 <= k < |EscapeRaw(x)| ==> Understood(EscapeRaw(x)[k])
  {
    if x != "" { EscapeUnderstood(x[1..]); }
  }

  /** Reading back what was escaped gives the string without the dropped control characters. */
  lemma ExtractEscape(s: string, i: nat, x: string)
    requires Has(s, i, Escape(x) + "\"")
    ensures i <= |s| && Extract(s, i) == Kept(x)
  {
    hide Has, Extract;
    EscapeIsJson(x);
    EscapeUnderstood(x);
    ExtractMeans(s, i, EscapeRaw(x));
  }
}
