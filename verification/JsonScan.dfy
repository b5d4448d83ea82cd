/** claude/json.c: the scanner that finds its way through JSON by looking at characters, against the
    texts of JsonText. Positions are indices into the C string; at its end lies the NUL. */
module JsonScan {
  import opened Base
  import opened JsonText

  predicate CText(s: string) { '\0' !in s }

  function At(s: string, i: nat): char { if i < |s| then s[i] else '\0' }

  // ---- skipping strings and finding the matching close

  /** Past the closing quote of a string whose contents start at i. */
  function SkipString(s: string, i: nat): (j: nat)
    requires i <= |s|
    ensures i <= j <= |s|
    decreases |s| - i
  {
    if i == |s| then i
    else if s[i] == '"' then i + 1
    else if s[i] == '\\' && i + 1 < |s| then SkipString(s, i + 2)
    else SkipString(s, i + 1)
  }

  /** Where the scan stops that starts at i inside `depth` brackets. */
  function Scan(s: string, i: nat, depth: nat, open: char, close: char): (j: nat)
    requires i <= |s| && depth > 0
    ensures i <= j <= |s|
    decreases |s| - i
  {
    if i == |s| then i
    else if s[i] == '"' then Scan(s, SkipString(s, i + 1), depth, open, close)
    else if s[i] == open then Scan(s, i + 1, depth + 1, open, close)
    else if s[i] == close then if depth == 1 then i else Scan(s, i + 1, depth - 1, open, close)
    else Scan(s, i + 1, depth, open, close)
  }

  /** find_matching_close, from an opening character at p. */
  method FindMatchingClose(s: string, p: nat, open: char, close: char) returns (q: nat)
    requires CText(s) && p < |s| && open != close && open != '"' && close != '"'
    ensures q == Scan(s, p + 1, 1, open, close)
  {
    var depth := 1;
    q := p + 1;
    while q < |s| && depth > 0
      invariant p + 1 <= q <= |s|
      invariant if depth > 0 then Scan(s, q, depth, open, close) == Scan(s, p + 1, 1, open, close)
                else depth == 0 && q == Scan(s, p + 1, 1, open, close)
      decreases |s| - q, depth
    {
      if s[q] == '"' {
        ghost var start := q + 1;
        q := q + 1;
        while q < |s| && s[q] != '"'
          invariant start <= q <= |s|
          invariant SkipString(s, q) == SkipString(s, start)
          decreases |s| - q
        {
          if s[q] == '\\' && q + 1 < |s| { q := q + 1; }
          q := q + 1;
        }
        if q < |s| && s[q] == '"' { q := q + 1; }
        continue;
      }
      if s[q] == open { depth := depth + 1; } else if s[q] == close { depth := depth - 1; }
      if depth > 0 { q := q + 1; }
    }
  }

  lemma {:induction false} SkipPlain(s: string, i: nat, t: string)
    requires Has(s, i, t) && forall k :: 0 <= k < |t| ==> t[k] != '"' && t[k] != '\\'
    ensures SkipString(s, i) == SkipString(s, i + |t|)
    decreases |t|
  {
    if t != "" {
      HasAt(s, i, t, 0);
      HasSplit(s, i, t[..1], t[1..]);
      assert t == t[..1] + t[1..];
      SkipPlain(s, i + 1, t[1..]);
    }
  }

  lemma SkipUnit(s: string, i: nat, u: Unit)
    requires Has(s, i, UnitText(u)) && UnitOk(u)
    ensures SkipString(s, i) == SkipString(s, i + |UnitText(u)|)
  {
    match u
    case Plain(c) => SkipPlain(s, i, [c]);
    case Short(c) =>
      HasAt(s, i, UnitText(u), 0);
      HasAt(s, i, UnitText(u), 1);
    case Hex(digits) => SkipHex(s, i, digits);
    case Pair(high, low) =>
      assert UnitText(u) == ("\\u" + high) + ("\\u" + low);
      HasSplit(s, i, "\\u" + high, "\\u" + low);
      SkipHex(s, i, high);
      SkipHex(s, i + 6, low);
  }

  lemma SkipHex(s: string, i: nat, digits: string)
    requires HexOk(digits) && Has(s, i, "\\u" + digits)
    ensures SkipString(s, i) == SkipString(s, i + 6)
  {
    HasAt(s, i, "\\u" + digits, 0);
    HasSplit(s, i, "\\u", digits);
    SkipPlain(s, i + 2, digits);
  }

  lemma SkipQuote(s: string, i: nat)
    requires At(s, i) == '"'
    ensures i < |s| && SkipString(s, i) == i + 1
  {
  }

  /** The scanner and the grammar agree on where a string ends. */
  lemma {:induction false} SkipRaw(s: string, i: nat, raw: Raw)
    requires RawOk(raw) && Has(s, i, RawText(raw)) && At(s, i + |RawText(raw)|) == '"'
    ensures SkipString(s, i) == i + |RawText(raw)| + 1
    decreases |raw|
  {
    hide Has, SkipString, UnitText, At, UnitOk;
    if raw == [] {
      SkipQuote(s, i);
    } else {
      var u := UnitText(raw[0]);
      HasSplit(s, i, u, RawText(raw[1..]));
      assert UnitOk(raw[0]);
      SkipUnit(s, i, raw[0]);
      SkipRaw(s, i + |u|, raw[1..]);
    }
  }

  predicate Neutral(c: char, open: char, close: char) { c != '"' && c != open && c != close }

  lemma {:induction false} ScanPlain(s: string, i: nat, t: string, d: nat, open: char, close: char)
    requires Has(s, i, t) && d > 0 && forall k :: 0 <= k < |t| ==> Neutral(t[k], open, close)
    ensures Scan(s, i, d, open, close) == Scan(s, i + |t|, d, open, close)
    decreases |t|
  {
    if t != "" {
      HasAt(s, i, t, 0);
      assert t == t[..1] + t[1..];
      HasSplit(s, i, t[..1], t[1..]);
      ScanPlain(s, i + 1, t[1..], d, open, close);
    }
  }

  /** The two pairs of brackets the scanner is used with. */
  predicate Brackets(open: char, close: char) { (open == '{' && close == '}') || (open == '[' && close == ']') }

  lemma ScanQuote(s: string, i: nat, d: nat, open: char, close: char)
    requires Brackets(open, close) && d > 0 && At(s, i) == '"'
    ensures i < |s| && Scan(s, i, d, open, close) == Scan(s, SkipString(s, i + 1), d, open, close)
  {
  }

  lemma ScanOpen(s: string, i: nat, d: nat, open: char, close: char)
    requires Brackets(open, close) && d > 0 && i < |s| && (s[i] == '{' || s[i] == '[')
    ensures Scan(s, i, d, open, close) == Scan(s, i + 1, if s[i] == open then d + 1 else d, open, close)
  {
  }

  lemma ScanClose(s: string, i: nat, d: nat, open: char, close: char)
    requires Brackets(open, close) && d > 0 && i < |s| && (s[i] == '}' || s[i] == ']')
    ensures s[i] == close && d == 1 ==> Scan(s, i, d, open, close) == i
    ensures s[i] != close || d > 1 ==> Scan(s, i, d, open, close) == Scan(s, i + 1, if s[i] == close then d - 1 else d, open, close)
  {
  }

  lemma HasChar(s: string, i: nat, c: char)
    requires Has(s, i, [c])
    ensures i < |s| && s[i] == c && At(s, i) == c
  {
  }

  lemma ScanLit(s: string, i: nat, raw: Raw, d: nat, open: char, close: char)
    requires Brackets(open, close) && d > 0 && RawOk(raw) && Has(s, i, Lit(raw))
    ensures Scan(s, i, d, open, close) == Scan(s, i + |Lit(raw)|, d, open, close)
  {
    hide Has, Scan, SkipString, RawOk, RawText, At;
    var t := RawText(raw);
    assert Lit(raw) == ['"'] + (t + ['"']);
    HasSplit(s, i, ['"'], t + ['"']);
    HasSplit(s, i + 1, t, ['"']);
    HasChar(s, i, '"');
    HasChar(s, i + 1 + |t|, '"');
    ScanQuote(s, i, d, open, close);
    SkipRaw(s, i + 1, raw);
  }

  /** A value leaves the depth as it was. */
  lemma {:induction false} ScanValue(s: string, i: nat, v: Json, d: nat, open: char, close: char)
    requires Brackets(open, close) && d > 0 && JsonOk(v) && Has(s, i, Text(v))
    ensures Scan(s, i, d, open, close) == Scan(s, i + |Text(v)|, d, open, close)
    decreases v, 2
  {
    hide Has, Scan, Lit, ItemsText, MembersText;
    match v
    case Atom(t) =>
      ScanPlain(s, i, t, d, open, close);
    case Str(raw) => ScanLit(s, i, raw, d, open, close);
    case Arr(_, _) => ScanBracketed(s, i, v, d, open, close);
    case Obj(_, _) => ScanBracketed(s, i, v, d, open, close);
    case Padded(before, w, after) =>
      HasSplit(s, i, before, Text(w) + after);
      HasSplit(s, i + |before|, Text(w), after);
      ScanPlain(s, i, before, d, open, close);
      ScanValue(s, i + |before|, w, d, open, close);
      ScanPlain(s, i + |before| + |Text(w)|, after, d, open, close);
  }

  lemma {:induction false} ScanBracketed(s: string, i: nat, v: Json, d: nat, open: char, close: char)
    requires Brackets(open, close) && d > 0 && JsonOk(v) && Has(s, i, Text(v)) && (v.Arr? || v.Obj?)
    ensures Scan(s, i, d, open, close) == Scan(s, i + |Text(v)|, d, open, close)
    decreases v, 1
  {
    hide Has, Scan, JsonOk, Text;
    var deeper := if (open == '[') == v.Arr? then d + 1 else d;
    var n := ScanInside(s, i, v, deeper, open, close);
    ScanOpen(s, i, d, open, close);
    ScanClose(s, n, deeper, open, close);
  }

  function Inner(v: Json): string
    requires v.Arr? || v.Obj?
  {
    if v.Arr? then ItemsText(v.items) else MembersText(v.members)
  }

  function First(v: Json): char { if v.Arr? then '[' else '{' }

  function Last(v: Json): char { if v.Arr? then ']' else '}' }

  lemma BracketedText(v: Json)
    requires v.Arr? || v.Obj?
    ensures Text(v) == [First(v)] + (v.pad + (Inner(v) + [Last(v)]))
  {
  }

  /** From after the opening bracket of a value to its closing one. */
  lemma {:induction false} ScanInside(s: string, i: nat, v: Json, d: nat, open: char, close: char) returns (n: nat)
    requires Brackets(open, close) && d > 0 && JsonOk(v) && Has(s, i, Text(v)) && (v.Arr? || v.Obj?)
    ensures n == i + |Text(v)| - 1 && n < |s| && s[i] == First(v) && s[n] == Last(v)
    ensures Scan(s, i + 1, d, open, close) == Scan(s, n, d, open, close)
    decreases v, 0
  {
    hide Has, Scan, Text, ItemsText, MembersText, At;
    BracketedText(v);
    HasSplit(s, i, [First(v)], v.pad + (Inner(v) + [Last(v)]));
    HasSplit(s, i + 1, v.pad, Inner(v) + [Last(v)]);
    HasSplit(s, i + 1 + |v.pad|, Inner(v), [Last(v)]);
    n := i + 1 + |v.pad| + |Inner(v)|;
    HasChar(s, i, First(v));
    HasChar(s, n, Last(v));
    ScanPlain(s, i + 1, v.pad, d, open, close);
    if v.Arr? {
      ScanItems(s, i + 1 + |v.pad|, v.items, d, open, close);
    } else {
      ScanMembers(s, i + 1 + |v.pad|, v.members, d, open, close);
    }
  }

  lemma {:induction false} ScanItems(s: string, i: nat, items: Items, d: nat, open: char, close: char)
    requires Brackets(open, close) && d > 0 && ItemsOk(items) && Has(s, i, ItemsText(items))
    ensures Scan(s, i, d, open, close) == Scan(s, i + |ItemsText(items)|, d, open, close)
    decreases items
  {
    hide Has, Scan, Text;
    if items.Item? {
      var rest := if items.tail.NoItems? then "" else "," + ItemsText(items.tail);
      HasSplit(s, i, Text(items.head), rest);
      var j := i + |Text(items.head)|;
      ScanValue(s, i, items.head, d, open, close);
      if items.tail.Item? {
        HasSplit(s, j, ",", ItemsText(items.tail));
        ScanPlain(s, j, ",", d, open, close);
        ScanItems(s, j + 1, items.tail, d, open, close);
      }
    }
  }

  lemma {:induction false} ScanMembers(s: string, i: nat, members: Members, d: nat, open: char, close: char)
    requires Brackets(open, close) && d > 0 && MembersOk(members) && Has(s, i, MembersText(members))
    ensures Scan(s, i, d, open, close) == Scan(s, i + |MembersText(members)|, d, open, close)
    decreases members
  {
    hide Has, Scan, Lit, Text, RawOk;
    match members
    case NoMembers =>
    case Member(before, key, after, v, rest) =>
      var end := if rest.NoMembers? then "" else "," + MembersText(rest);
      HasSplit(s, i, before, Lit(key) + (after + (":" + (Text(v) + end))));
      var k := i + |before|;
      HasSplit(s, k, Lit(key), after + (":" + (Text(v) + end)));
      var a := k + |Lit(key)|;
      ScanPlain(s, i, before, d, open, close);
      ScanLit(s, k, key, d, open, close);
      ScanAfterKey(s, a, after, v, end, d, open, close);
      if rest.Member? {
        var c := a + |after| + 1 + |Text(v)|;
        HasSplit(s, c, ",", MembersText(rest));
        ScanPlain(s, c, ",", d, open, close);
        ScanMembers(s, c + 1, rest, d, open, close);
      }
  }

  lemma {:induction false} ScanAfterKey(s: string, a: nat, after: string, v: Json, end: string, d: nat, open: char, close: char)
    requires Brackets(open, close) && d > 0 && Spaces(after) && JsonOk(v) && Has(s, a, after + (":" + (Text(v) + end)))
    ensures var c := a + |after| + 1 + |Text(v)|; Has(s, c, end) && c <= |s| && Scan(s, a, d, open, close) == Scan(s, c, d, open, close)
    decreases v, 3
  {
    hide Has, Scan, Text, JsonOk;
    HasSplit(s, a, after, ":" + (Text(v) + end));
    HasSplit(s, a + |after|, ":", Text(v) + end);
    HasSplit(s, a + |after| + 1, Text(v), end);
    HasFits(s, a + |after| + 1 + |Text(v)|, end);
    ScanPlain(s, a, after, d, open, close);
    ScanPlain(s, a + |after|, ":", d, open, close);
    ScanValue(s, a + |after| + 1, v, d, open, close);
  }

  /** find_matching_close on any object or array, in any spelling and with anything after it, stops on
      the value's own last character. */
  lemma MatchingClose(s: string, i: nat, v: Json)
    requires JsonOk(v) && Has(s, i, Text(v)) && (v.Arr? || v.Obj?)
    ensures |Text(v)| >= 2 && s[i] == First(v)
    ensures Scan(s, i + 1, 1, First(v), Last(v)) == i + |Text(v)| - 1
  {
    hide Has, Text, JsonOk;
    var n := ScanInside(s, i, v, 1, First(v), Last(v));
    ScanClose(s, n, 1, First(v), Last(v));
  }
}
