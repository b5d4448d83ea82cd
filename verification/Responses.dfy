/** What claude/json.c makes of a whole API response: a content array of text and tool_use blocks, printed
    compactly, with any text before and after it that opens no tool call of its own. */
module Responses {
  import opened Base
  import opened JsonText
  import opened JsonScan
  import opened JsonEscape
  import opened ToolCalls

  datatype Block = TextBlock(text: Raw) | ToolBlock(id: Raw, name: Raw, input: Json)

  ghost predicate BlockOk(b: Block) {
    match b
    case TextBlock(text) => RawOk(text)
    case ToolBlock(id, name, input) => RawOk(id) && RawOk(name) && input.Obj? && JsonOk(input)
  }

  const TEXT_HEAD: string := "{\"type\":\"text\",\"text\":"
  const TOOL_HEAD: string := "{\"type\":\"tool_use\",\"id\":"

  const CALL_START: string := "{\"type\":\"tool_use"

  function BlockText(b: Block): string {
    match b
    case TextBlock(text) => TEXT_HEAD + (Lit(text) + "}")
    case ToolBlock(id, name, input) => TOOL_HEAD + (Lit(id) + (",\"name\":" + (Lit(name) + (",\"input\":" + (Text(input) + "}")))))
  }

  function BlocksText(bs: seq<Block>): string {
    if bs == [] then "" else BlockText(bs[0]) + if |bs| == 1 then "" else "," + BlocksText(bs[1..])
  }

  // ---- where quoted words can stand

  predicate Word(key: string) { key != "" && '"' !in key && '\\' !in key }

  /** A string literal from its opening quote a to its closing quote c: every quote inside is escaped. */
  ghost predicate StringAt(s: string, a: nat, c: nat) {
    a < c < |s| && s[a] == '"' && s[c] == '"' && forall k :: a < k < c && s[k] == '"' ==> EscapedAt(s, a, k)
  }

  predicate EscapedAt(s: string, a: nat, k: nat)
    requires k < |s|
  {
    k > a + 1 && s[k - 1] == '\\'
  }

  lemma WordQuotes(s: string, a: nat, key: string)
    requires Word(key) && Has(s, a, Quoted(key))
    ensures a + |key| + 1 < |s| && s[a] == '"' && s[a + |key| + 1] == '"'
    ensures forall k :: a < k < a + |key| + 1 ==> s[k] == key[k - a - 1] && s[k] != '"'
  {
    hide Has;
    HasFits(s, a, Quoted(key));
    HasAt(s, a, Quoted(key), 0);
    HasAt(s, a, Quoted(key), |key| + 1);
    forall k | a < k < a + |key| + 1 ensures s[k] == key[k - a - 1] && s[k] != '"' { HasAt(s, a, Quoted(key), k - a); }
  }

  lemma WordString(s: string, a: nat, key: string)
    requires Word(key) && Has(s, a, Quoted(key))
    ensures StringAt(s, a, a + |key| + 1)
  {
    hide Has;
    WordQuotes(s, a, key);
  }

  lemma {:induction false} QuotesEscaped(raw: Raw, k: nat)
    requires RawOk(raw) && k < |RawText(raw)| && RawText(raw)[k] == '"'
    ensures k > 0 && RawText(raw)[k - 1] == '\\'
    decreases |raw|
  {
    hide UnitText;
    var u := UnitText(raw[0]);
    assert UnitOk(raw[0]);
    if k < |u| {
      UnitQuote(raw[0], k);
    } else {
      QuotesEscaped(raw[1..], k - |u|);
    }
  }

  lemma UnitQuote(u: Unit, k: nat)
    requires UnitOk(u) && k < |UnitText(u)| && UnitText(u)[k] == '"'
    ensures k == 1 && UnitText(u)[0] == '\\'
  {
    match u
    case Plain(c) =>
    case Short(c) =>
    case Hex(digits) => HexQuote(digits);
    case Pair(high, low) =>
      HexQuote(high);
      HexQuote(low);
  }

  lemma HexQuote(digits: string)
    requires HexOk(digits)
    ensures '"' !in digits
  {
  }

  lemma LitChars(raw: Raw)
    ensures |Lit(raw)| == |RawText(raw)| + 2 && Lit(raw)[0] == '"' && Lit(raw)[|RawText(raw)| + 1] == '"'
    ensures forall k :: 0 < k <= |RawText(raw)| ==> Lit(raw)[k] == RawText(raw)[k - 1]
  {
    hide RawText;
  }

  lemma LitString(s: string, a: nat, raw: Raw)
    requires RawOk(raw) && Has(s, a, Lit(raw))
    ensures StringAt(s, a, a + |Lit(raw)| - 1)
  {
    hide Has, RawOk, Lit, RawText;
    var L, c := Lit(raw), a + |RawText(raw)| + 1;
    LitChars(raw);
    HasFits(s, a, L);
    HasAt(s, a, L, 0);
    HasAt(s, a, L, |RawText(raw)| + 1);
    forall k | a < k < c && s[k] == '"' ensures EscapedAt(s, a, k) { LitEscaped(s, a, raw, k); }
  }

  lemma LitEscaped(s: string, a: nat, raw: Raw, k: nat)
    requires RawOk(raw) && Has(s, a, Lit(raw)) && a < k < a + |RawText(raw)| + 1 && k < |s| && s[k] == '"'
    ensures EscapedAt(s, a, k)
  {
    hide Has, RawOk, Lit, RawText;
    LitChars(raw);
    HasAt(s, a, Lit(raw), k - a);
    QuotesEscaped(raw, k - a - 1);
    HasAt(s, a, Lit(raw), k - a - 1);
  }

  /** A quoted word that starts in a literal ends with it. */
  lemma QuotedEnds(s: string, a: nat, c: nat, t: nat, key: string)
    requires StringAt(s, a, c) && Word(key) && a <= t <= c && Has(s, t, Quoted(key)) && At(s, c + 1) != key[0]
    ensures t + |key| + 1 == c
  {
    hide Has;
    WordQuotes(s, t, key);
    assert s[t + |key|] == key[|key| - 1] != '\\' && s[t + 1] == key[0];
  }

  /** The literal from a to c ends with the quoted word. */
  predicate EndsIn(s: string, a: nat, c: nat, key: string) { a + |key| + 1 <= c && Has(s, c - |key| - 1, Quoted(key)) }

  lemma QuotedKey(s: string, i: nat, key: string)
    requires At(s, i) == '"' && KeyAt(s, i + 1, key)
    ensures Has(s, i, Quoted(key))
  {
    assert s[i..i + 1] == "\"" && s[i + |key| + 1..i + |key| + 2] == "\"";
    assert Quoted(key) == "\"" + (key + "\"");
    HasSplit(s, i + 1, key, "\"");
    HasSplit(s, i, "\"", key + "\"");
  }

  /** What may follow a literal in front of which a key search passes on: after a value a comma, after a key
      a colon, unless the literal looks like the key. */
  predicate Passes(s: string, a: nat, c: nat, key: string) {
    At(s, c + 1) == ',' || (At(s, c + 1) == ':' && !EndsIn(s, a, c, key))
  }

  lemma SkipNone(s: string, i: nat)
    requires i <= |s| && At(s, i) == ','
    ensures SkipWsColons(s, i) == i
  {
  }

  lemma PlainStep(s: string, i: nat, key: string)
    requires i < |s| && s[i] != '"'
    ensures FindKey(s, i, key) == FindKey(s, i + 1, key)
  {
  }

  lemma QuoteStep(s: string, i: nat, key: string)
    requires i < |s| && s[i] == '"' && !KeyAt(s, i + 1, key)
    ensures FindKey(s, i, key) == FindKey(s, i + 2, key)
  {
  }

  lemma MatchStep(s: string, i: nat, key: string)
    requires i < |s| && s[i] == '"' && KeyAt(s, i + 1, key) && i + |key| + 2 <= |s| && At(s, i + |key| + 2) == ','
    ensures FindKey(s, i, key) == FindKey(s, i + |key| + 3, key)
  {
    SkipNone(s, i + |key| + 2);
  }

  /** The key search passes over a literal. */
  lemma {:induction false} PassString(s: string, a: nat, c: nat, key: string, i: nat)
    requires StringAt(s, a, c) && Word(key) && key[0] != ',' && key[0] != ':' && Passes(s, a, c, key) && a <= i <= c + 1
    ensures FindKey(s, i, key) == FindKey(s, c + 1, key)
    decreases c + 1 - i
  {
    hide FindKey, KeyAt, Has;
    if i <= c {
      if s[i] != '"' {
        PlainStep(s, i, key);
        PassString(s, a, c, key, i + 1);
      } else if !KeyAt(s, i + 1, key) {
        QuoteStep(s, i, key);
        if i == c { PlainStep(s, c + 1, key); } else { PassString(s, a, c, key, i + 2); }
      } else {
        QuotedKey(s, i, key);
        QuotedEnds(s, a, c, i, key);
        MatchStep(s, i, key);
        PlainStep(s, c + 1, key);
      }
    }
  }

  /** A key followed by a colon and a string value. */
  lemma FoundHere(s: string, i: nat, key: string)
    requires Has(s, i, Quoted(key)) && At(s, i + |key| + 2) == ':' && At(s, i + |key| + 3) == '"'
    ensures FindKey(s, i, key) == Found(i + |key| + 4)
  {
    assert Quoted(key) == "\"" + (key + "\"");
    HasSplit(s, i, "\"", key + "\"");
    HasSplit(s, i + 1, key, "\"");
    HasChar(s, i, '"');
    HasChar(s, i + 1 + |key|, '"');
    var k := i + |key| + 2;
    assert SkipWsColons(s, k) == SkipWsColons(s, k + 1) == k + 1;
  }

  // ---- a tool_use block

  /** Where the parts of a tool_use block at o lie: x after the id, y after the name, z at the closing brace. */
  ghost predicate Layout(s: string, o: nat, x: nat, y: nat, z: nat) {
    && o + 25 < x && x + 9 < y && y + 9 < z < |s|
    && s[o] == '{' && Has(s, o + 1, TYPE) && s[o + 7] == ':' && Has(s, o + 8, Quoted("tool_use")) && s[o + 18] == ','
    && Has(s, o + 19, Quoted("id")) && s[o + 23] == ':' && StringAt(s, o + 24, x - 1) && s[x] == ','
    && Has(s, x + 1, Quoted("name")) && s[x + 7] == ':' && StringAt(s, x + 8, y - 1) && s[y] == ','
    && Has(s, y + 1, INPUT) && s[y + 8] == ':' && s[y + 9] == '{' && s[z] == '}'
  }

  lemma ToolHead(s: string, o: nat)
    requires Has(s, o, TOOL_HEAD)
    ensures o + 24 <= |s| && s[o] == '{' && Has(s, o + 1, TYPE) && s[o + 7] == ':' && Has(s, o + 8, Quoted("tool_use"))
    ensures s[o + 18] == ',' && Has(s, o + 19, Quoted("id")) && s[o + 23] == ':'
  {
    hide Has;
    assert TOOL_HEAD == ['{'] + (TYPE + ([':'] + (Quoted("tool_use") + ([','] + (Quoted("id") + [':'])))));
    HasSplit(s, o, ['{'], TYPE + ([':'] + (Quoted("tool_use") + ([','] + (Quoted("id") + [':'])))));
    HasSplit(s, o + 1, TYPE, [':'] + (Quoted("tool_use") + ([','] + (Quoted("id") + [':']))));
    HasSplit(s, o + 7, [':'], Quoted("tool_use") + ([','] + (Quoted("id") + [':'])));
    HasSplit(s, o + 8, Quoted("tool_use"), [','] + (Quoted("id") + [':']));
    HasSplit(s, o + 18, [','], Quoted("id") + [':']);
    HasSplit(s, o + 19, Quoted("id"), [':']);
    HasChar(s, o, '{');
    HasChar(s, o + 7, ':');
    HasChar(s, o + 18, ',');
    HasChar(s, o + 23, ':');
  }

  /** `,"key":` */
  lemma KeyPart(s: string, x: nat, key: string)
    requires Has(s, x, [','] + (Quoted(key) + [':']))
    ensures x + |key| + 4 <= |s| && s[x] == ',' && Has(s, x + 1, Quoted(key)) && s[x + |key| + 3] == ':'
  {
    hide Has;
    HasSplit(s, x, [','], Quoted(key) + [':']);
    HasSplit(s, x + 1, Quoted(key), [':']);
    HasChar(s, x, ',');
    HasChar(s, x + 1 + |Quoted(key)|, ':');
  }

  function NameKey(): string { [','] + (Quoted("name") + [':']) }

  function InputKey(): string { [','] + (Quoted("input") + [':']) }

  /** The parts of a tool_use block, one after the other. */
  lemma ToolText(b: Block)
    requires b.ToolBlock?
    ensures BlockText(b) == TOOL_HEAD + (Lit(b.id) + (NameKey() + (Lit(b.name) + (InputKey() + (Text(b.input) + ['}'])))))
    ensures |NameKey()| == 8 && |InputKey()| == 9 && |TOOL_HEAD| == 24
  {
    hide Lit, Text;
    assert NameKey() == ",\"name\":" && InputKey() == ",\"input\":";
  }

  /** Where its parts stand. */
  lemma ToolParts(s: string, o: nat, b: Block) returns (x: nat, y: nat, z: nat)
    requires b.ToolBlock? && Has(s, o, BlockText(b))
    ensures x == o + 24 + |Lit(b.id)| && y == x + 8 + |Lit(b.name)| && z == y + 9 + |Text(b.input)| == o + |BlockText(b)| - 1
    ensures Has(s, o, TOOL_HEAD) && Has(s, o + 24, Lit(b.id)) && Has(s, x, NameKey()) && Has(s, x + 8, Lit(b.name))
    ensures Has(s, y, InputKey()) && Has(s, y + 9, Text(b.input)) && Has(s, z, ['}'])
  {
    hide Has, Lit, Text, BlockText, NameKey, InputKey;
    ToolText(b);
    var I, N, T := Lit(b.id), Lit(b.name), Text(b.input);
    x := o + 24 + |I|;
    y := x + 8 + |N|;
    z := y + 9 + |T|;
    HasSplit(s, o, TOOL_HEAD, I + (NameKey() + (N + (InputKey() + (T + ['}'])))));
    HasSplit(s, o + 24, I, NameKey() + (N + (InputKey() + (T + ['}']))));
    HasSplit(s, x, NameKey(), N + (InputKey() + (T + ['}'])));
    HasSplit(s, x + 8, N, InputKey() + (T + ['}']));
    HasSplit(s, y, InputKey(), T + ['}']);
    HasSplit(s, y + 9, T, ['}']);
  }

  lemma ToolLayout(s: string, o: nat, b: Block) returns (x: nat, y: nat, z: nat)
    requires b.ToolBlock? && BlockOk(b) && Has(s, o, BlockText(b))
    ensures Layout(s, o, x, y, z) && z == o + |BlockText(b)| - 1
    ensures x == o + 24 + |Lit(b.id)| && Has(s, o + 24, Lit(b.id)) && y == x + 8 + |Lit(b.name)| && Has(s, x + 8, Lit(b.name))
    ensures z == y + 9 + |Text(b.input)| && Has(s, y + 9, Text(b.input))
  {
    hide Has, Lit, Text, RawOk, JsonOk, StringAt, BlockText;
    x, y, z := ToolParts(s, o, b);
    ToolHead(s, o);
    KeyPart(s, x, "name");
    KeyPart(s, y, "input");
    HasChar(s, z, '}');
    LitString(s, o + 24, b.id);
    LitString(s, x + 8, b.name);
    LitLength(b.id);
    LitLength(b.name);
    MatchingClose(s, y + 9, b.input);
  }

  lemma LitLength(raw: Raw)
    ensures |Lit(raw)| >= 2
  {
  }

  lemma FindId(s: string, o: nat, x: nat, y: nat, z: nat)
    requires Layout(s, o, x, y, z)
    ensures FindKey(s, o, "id") == Found(o + 25)
  {
    hide FindKey, Has, StringAt;
    PlainStep(s, o, "id");
    WordString(s, o + 1, "type");
    ShortKey(s, o + 1, "type", "id");
    PassString(s, o + 1, o + 6, "id", o + 1);
    PlainStep(s, o + 7, "id");
    WordString(s, o + 8, "tool_use");
    PassString(s, o + 8, o + 17, "id", o + 8);
    PlainStep(s, o + 18, "id");
    assert At(s, o + 24) == '"' by { LiteralEnds(s, o + 24, x - 1); }
    FoundHere(s, o + 19, "id");
  }

  lemma LiteralEnds(s: string, a: nat, c: nat)
    requires StringAt(s, a, c)
    ensures a < c < |s| && s[a] == '"' && At(s, a) == '"'
  {
  }

  /** A different word as a key does not look like the one searched for. */
  lemma ShortKey(s: string, a: nat, word: string, key: string)
    requires Word(word) && Word(key) && Has(s, a, Quoted(word))
    ensures EndsIn(s, a, a + |word| + 1, key) ==> word == key
  {
    hide Has;
    WordQuotes(s, a, word);
    if EndsIn(s, a, a + |word| + 1, key) {
      WordQuotes(s, a + |word| - |key|, key);
      assert |word| == |key|;
      forall k | 0 <= k < |key| ensures word[k] == key[k] { assert s[a + 1 + k] == word[k]; }
    }
  }

  lemma FindName(s: string, o: nat, x: nat, y: nat, z: nat)
    requires Layout(s, o, x, y, z)
    ensures FindKey(s, o, "name") == Found(x + 9)
  {
    hide FindKey, Has, StringAt;
    PlainStep(s, o, "name");
    WordString(s, o + 1, "type");
    ShortKey(s, o + 1, "type", "name");
    PassString(s, o + 1, o + 6, "name", o + 1);
    PlainStep(s, o + 7, "name");
    WordString(s, o + 8, "tool_use");
    PassString(s, o + 8, o + 17, "name", o + 8);
    PlainStep(s, o + 18, "name");
    WordString(s, o + 19, "id");
    ShortKey(s, o + 19, "id", "name");
    PassString(s, o + 19, o + 22, "name", o + 19);
    PlainStep(s, o + 23, "name");
    PassString(s, o + 24, x - 1, "name", o + 24);
    PlainStep(s, x, "name");
    assert At(s, x + 8) == '"' by { LiteralEnds(s, x + 8, y - 1); }
    FoundHere(s, x + 1, "name");
  }

  // ---- what the parser makes of one block

  lemma StopHere(s: string, i: nat)
    requires i < |s| && !IsSpace(s[i]) && s[i] != ':'
    ensures AfterColon(s, i) == i
  {
  }

  lemma ColonThen(s: string, i: nat)
    requires i + 1 < |s| && s[i] == ':' && !IsSpace(s[i + 1])
    ensures AfterColon(s, i) == i + 1
  {
    assert SkipWs(s, i) == i && SkipWs(s, i + 1) == i + 1;
  }

  /** No quoted word starts in the part of a tool_use block that lies outside the id and the name. */
  lemma FixedPart(s: string, o: nat, x: nat, y: nat, z: nat, t: nat, key: string)
    requires Layout(s, o, x, y, z) && (key == "type" || key == "input") && Has(s, t, Quoted(key))
    requires o <= t <= o + 23 || x <= t <= x + 7 || y <= t <= y
    ensures key == "type" && t == o + 1
  {
    hide Has, StringAt;
    WordQuotes(s, t, key);
    WordQuotes(s, o + 1, "type");
    WordQuotes(s, o + 8, "tool_use");
    WordQuotes(s, o + 19, "id");
    WordQuotes(s, x + 1, "name");
    assert s[t + 1] == key[0] && s[t + 2] == key[1];
  }

  /** Where the word "input" first stands: as the key, unless the id or the name looks like it. */
  lemma FirstInput(s: string, o: nat, x: nat, y: nat, z: nat) returns (k: nat)
    requires Layout(s, o, x, y, z)
    ensures k == Find(s, o, INPUT) < z
    ensures k == if EndsIn(s, o + 24, x - 1, "input") then x - 7 else if EndsIn(s, x + 8, y - 1, "input") then y - 7 else y + 1
  {
    hide Has, StringAt, Find, EndsIn;
    k := if EndsIn(s, o + 24, x - 1, "input") then x - 7 else if EndsIn(s, x + 8, y - 1, "input") then y - 7 else y + 1;
    EndsInIs(s, o + 24, x - 1, "input");
    EndsInIs(s, x + 8, y - 1, "input");
    forall t | o <= t < k ensures !Has(s, t, INPUT) {
      if Has(s, t, INPUT) {
        if o + 24 <= t <= x - 1 {
          QuotedEnds(s, o + 24, x - 1, t, "input");
        } else if x + 8 <= t <= y - 1 {
          QuotedEnds(s, x + 8, y - 1, t, "input");
        } else {
          FixedPart(s, o, x, y, z, t, "input");
        }
      }
    }
    FindIs(s, o, INPUT, k);
  }

  lemma EndsInIs(s: string, a: nat, c: nat, key: string)
    ensures EndsIn(s, a, c, key) <==> a + |key| + 1 <= c && Has(s, c - |key| - 1, Quoted(key))
  {
  }

  /** The literal ends with the quoted word: it is that word, or ends with an escaped quote and the word. */
  predicate LooksLike(raw: Raw, key: string) {
    |key| + 2 <= |Lit(raw)| && Lit(raw)[|Lit(raw)| - |key| - 2..] == Quoted(key)
  }

  lemma EndsInLit(s: string, a: nat, raw: Raw, key: string)
    requires Has(s, a, Lit(raw))
    ensures EndsIn(s, a, a + |Lit(raw)| - 1, key) <==> LooksLike(raw, key)
  {
    hide Lit;
    var L := Lit(raw);
    if |key| + 2 <= |L| {
      var n := |L| - |key| - 2;
      assert L == L[..n] + L[n..];
      HasSplit(s, a, L[..n], L[n..]);
    }
  }

  /** The id or the name gets in the way of the search for the input. */
  predicate Clashes(b: Block)
    requires b.ToolBlock?
  {
    LooksLike(b.id, "input") || LooksLike(b.name, "input")
  }

  /** What the parser reads from a tool_use block. */
  ghost function CallOf(b: Block): Call
    requires b.ToolBlock?
  {
    Call(Some(Cut(Out(b.id), 63)), Some(Cut(Out(b.name), 63)), if Clashes(b) then None else Some(Cut(Text(b.input), 4095)))
  }

  lemma InputRead(s: string, o: nat, b: Block)
    requires b.ToolBlock? && BlockOk(b) && Has(s, o, BlockText(b))
    ensures o <= |s| && ReadInput(s, o, o + |BlockText(b)| - 1) == if Clashes(b) then None else Some(Cut(Text(b.input), 4095))
  {
    hide Has, StringAt, Find, EndsIn, LooksLike, Scan, Text, Lit, AfterColon, Cut, JsonOk, RawOk, BlockText;
    var x, y, z := ToolLayout(s, o, b);
    var k := FirstInput(s, o, x, y, z);
    EndsInLit(s, o + 24, b.id, "input");
    EndsInLit(s, x + 8, b.name, "input");
    if Clashes(b) {
      StopHere(s, k + 7);
    } else {
      ColonThen(s, y + 8);
      MatchingClose(s, y + 9, b.input);
      HasIs(s, y + 9, Text(b.input));
    }
  }

  lemma HasIs(s: string, i: nat, t: string)
    requires Has(s, i, t)
    ensures i + |t| <= |s| && s[i..i + |t|] == t
  {
  }

  // ---- whole responses

  function Plains(w: string): Raw { seq(|w|, i requires 0 <= i < |w| => Plain(w[i])) }

  lemma {:induction false} PlainsText(w: string)
    ensures RawText(Plains(w)) == w
  {
    if w != "" {
      PlainsText(w[1..]);
      assert Plains(w)[1..] == Plains(w[1..]);
    }
  }

  /** The block as a JSON value. */
  function BlockJson(b: Block): Json {
    match b
    case TextBlock(text) =>
      Obj("", Member("", Plains("type"), "", Str(Plains("text")), Member("", Plains("text"), "", Str(text), NoMembers)))
    case ToolBlock(id, name, input) =>
      Obj("", Member("", Plains("type"), "", Str(Plains("tool_use")), ToolMembers(id, name, input)))
  }

  function ToolMembers(id: Raw, name: Raw, input: Json): Members {
    Member("", Plains("id"), "", Str(id), Member("", Plains("name"), "", Str(name), Member("", Plains("input"), "", input, NoMembers)))
  }

  lemma LastMemberText(key: string, v: Json)
    ensures MembersText(Member("", Plains(key), "", v, NoMembers)) == Quoted(key) + (":" + Text(v))
  {
    PlainsText(key);
    hide RawText, Text, Plains;
  }

  lemma StringText(raw: Raw)
    ensures Text(Str(raw)) == Lit(raw)
  {
  }

  lemma ToolMembersText(id: Raw, name: Raw, input: Json)
    ensures MembersText(ToolMembers(id, name, input)) ==
            "\"id\":" + (Lit(id) + (",\"name\":" + (Lit(name) + (",\"input\":" + Text(input)))))
  {
    hide MembersText, Text, Plains, Lit;
    var c := Member("", Plains("input"), "", input, NoMembers);
    var b := Member("", Plains("name"), "", Str(name), c);
    LastMemberText("input", input);
    OneMemberText("name", Str(name), c);
    OneMemberText("id", Str(id), b);
    StringText(id);
    StringText(name);
    Keys(Lit(id), Lit(name), Text(input));
  }

  lemma Keys(id: string, name: string, input: string)
    ensures Quoted("id") + (":" + (id + ("," + (Quoted("name") + (":" + (name + ("," + (Quoted("input") + (":" + input))))))))) ==
            "\"id\":" + (id + (",\"name\":" + (name + (",\"input\":" + input))))
  {
    assert "," + (Quoted("input") + (":" + input)) == ",\"input\":" + input;
    assert "," + (Quoted("name") + (":" + (name + (",\"input\":" + input)))) == ",\"name\":" + (name + (",\"input\":" + input));
    var rest := id + (",\"name\":" + (name + (",\"input\":" + input)));
    assert Quoted("id") + (":" + rest) == "\"id\":" + rest;
  }

  lemma PlainsOk(w: string)
    requires forall i :: 0 <= i < |w| ==> 'a' <= w[i] <= 'z' || w[i] == '_'
    ensures RawOk(Plains(w))
  {
  }

  lemma MemberOk(w: string, v: Json, rest: Members)
    requires forall i :: 0 <= i < |w| ==> 'a' <= w[i] <= 'z' || w[i] == '_'
    requires JsonOk(v) && MembersOk(rest)
    ensures MembersOk(Member("", Plains(w), "", v, rest))
  {
    hide RawOk, JsonOk;
    PlainsOk(w);
  }

  lemma BlockMembersOk(b: Block)
    requires BlockOk(b)
    ensures JsonOk(BlockJson(b))
  {
    hide RawOk, Plains, MembersOk;
    assert MembersOk(NoMembers) by { NoneOk(); }
    PlainsOk("text");
    PlainsOk("tool_use");
    match b
    case TextBlock(text) =>
      var m := Member("", Plains("text"), "", Str(text), NoMembers);
      MemberOk("text", Str(text), NoMembers);
      MemberOk("type", Str(Plains("text")), m);
    case ToolBlock(id, name, input) =>
      var c := Member("", Plains("input"), "", input, NoMembers);
      var d := Member("", Plains("name"), "", Str(name), c);
      MemberOk("input", input, NoMembers);
      MemberOk("name", Str(name), c);
      MemberOk("id", Str(id), d);
      MemberOk("type", Str(Plains("tool_use")), ToolMembers(id, name, input));
  }

  lemma NoneOk()
    ensures MembersOk(NoMembers)
  {
  }

  lemma OneMemberText(key: string, v: Json, rest: Members)
    requires rest.Member?
    ensures MembersText(Member("", Plains(key), "", v, rest)) == Quoted(key) + (":" + (Text(v) + ("," + MembersText(rest))))
  {
    PlainsText(key);
    hide RawText, Text, Plains;
  }

  lemma ObjText(m: Members)
    ensures Text(Obj("", m)) == "{" + (MembersText(m) + "}")
  {
    hide MembersText;
  }

  lemma WordText(word: string)
    ensures Text(Str(Plains(word))) == Quoted(word)
  {
    PlainsText(word);
    hide RawText, Plains;
  }

  /** `{"type":"<word>",` before the other members. */
  lemma TypedText(word: string, rest: Members)
    requires rest.Member?
    ensures Text(Obj("", Member("", Plains("type"), "", Str(Plains(word)), rest))) ==
            "{\"type\":" + (Quoted(word) + ("," + (MembersText(rest) + "}")))
  {
    hide MembersText, Text, Plains;
    var m := Member("", Plains("type"), "", Str(Plains(word)), rest);
    ObjText(m);
    OneMemberText("type", Str(Plains(word)), rest);
    WordText(word);
    PushIn(Quoted("type"), ":", Quoted(word), ",", MembersText(rest), "}");
    assert "{" + (Quoted("type") + (":" + (Quoted(word) + ("," + (MembersText(rest) + "}"))))) ==
           ("{" + (Quoted("type") + ":")) + (Quoted(word) + ("," + (MembersText(rest) + "}")));
    assert "{" + (Quoted("type") + ":") == "{\"type\":";
  }

  lemma TextBlockJson(text: Raw)
    ensures Text(BlockJson(TextBlock(text))) == BlockText(TextBlock(text))
  {
    hide MembersText, Text, Plains, Lit;
    TypedText("text", Member("", Plains("text"), "", Str(text), NoMembers));
    TextMemberText(text);
    assert TEXT_HEAD == "{\"type\":" + (Quoted("text") + ("," + "\"text\":"));
    Regroup("{\"type\":", Quoted("text"), ",", "\"text\":", Lit(text), "}");
  }

  lemma ToolBlockJson(id: Raw, name: Raw, input: Json)
    ensures Text(BlockJson(ToolBlock(id, name, input))) == BlockText(ToolBlock(id, name, input))
  {
    hide MembersText, Text, Plains, Lit, ToolMembers;
    assert ToolMembers(id, name, input).Member? by { ToolMembersSome(id, name, input); }
    TypedText("tool_use", ToolMembers(id, name, input));
    ToolMembersText(id, name, input);
    assert TOOL_HEAD == "{\"type\":" + (Quoted("tool_use") + ("," + "\"id\":"));
    var body := Lit(id) + (",\"name\":" + (Lit(name) + (",\"input\":" + Text(input))));
    Regroup("{\"type\":", Quoted("tool_use"), ",", "\"id\":", body, "}");
    PushIn(Lit(id), ",\"name\":", Lit(name), ",\"input\":", Text(input), "}");
  }

  lemma ToolMembersSome(id: Raw, name: Raw, input: Json)
    ensures ToolMembers(id, name, input).Member?
  {
  }

  lemma BlockIsJson(b: Block)
    requires BlockOk(b)
    ensures JsonOk(BlockJson(b)) && Text(BlockJson(b)) == BlockText(b) && BlockJson(b).Obj?
  {
    hide MembersText, Text, JsonOk, Plains, Lit, BlockText;
    BlockMembersOk(b);
    match b
    case TextBlock(text) => TextBlockJson(text);
    case ToolBlock(id, name, input) => ToolBlockJson(id, name, input);
  }

  lemma Regroup(a: string, b: string, c: string, d: string, e: string, f: string)
    ensures a + (b + (c + ((d + e) + f))) == (a + (b + (c + d))) + (e + f)
  {
  }

  lemma PushIn(a: string, b: string, c: string, d: string, e: string, f: string)
    ensures (a + (b + (c + (d + e)))) + f == a + (b + (c + (d + (e + f))))
  {
  }

  lemma TextMemberText(text: Raw)
    ensures MembersText(Member("", Plains("text"), "", Str(text), NoMembers)) == "\"text\":" + Lit(text)
  {
    hide MembersText, Text, Plains, Lit;
    LastMemberText("text", Str(text));
    StringText(text);
  }

  /** From lo to hi no word "type" opens a tool call. */
  ghost predicate Quiet(s: string, lo: nat, hi: nat)
    requires hi <= |s|
  {
    forall t :: lo <= t < hi && Has(s, t, TYPE) ==> QuietAt(s, t, hi)
  }

  predicate QuietAt(s: string, t: nat, hi: nat)
    requires hi <= |s|
  {
    t + 6 <= hi && !IsToolUse(s, t)
  }

  lemma {:induction false} QuietSkip(s: string, lo: nat, hi: nat, n: nat)
    requires lo <= hi <= |s| && Quiet(s, lo, hi)
    ensures Parse(s, lo, n) == Parse(s, hi, n)
    decreases hi - lo
  {
    hide Parse, Has, IsToolUse, Find;
    if n == 0 {
      ParseDone(s, lo, n);
      ParseDone(s, hi, n);
    } else if lo < hi {
      var t := Find(s, lo, TYPE);
      if t == |s| {
        ParseNone(s, lo, n);
        FindLater(s, lo, hi);
        if hi < |s| { ParseNone(s, hi, n); } else { ParseDone(s, hi, n); }
      } else if t < hi {
        assert QuietAt(s, t, hi);
        ParseSkip(s, lo, n, t);
        QuietSkip(s, t + 6, hi, n);
      } else {
        FindLater(s, lo, hi);
        SameParse(s, lo, hi, n);
      }
    }
  }

  lemma FindLater(s: string, lo: nat, hi: nat)
    requires lo <= hi <= |s| && Find(s, lo, TYPE) >= hi
    ensures Find(s, hi, TYPE) == Find(s, lo, TYPE)
  {
    hide Find, Has;
    FindIs(s, hi, TYPE, Find(s, lo, TYPE));
  }

  lemma SameParse(s: string, lo: nat, hi: nat, n: nat)
    requires lo < |s| && hi < |s| && n > 0 && Find(s, lo, TYPE) == Find(s, hi, TYPE) < |s|
    ensures Parse(s, lo, n) == Parse(s, hi, n)
  {
    hide Find, Has, IsToolUse, Back, Scan, Overruns, ReadCall;
  }

  /** A text block opens no tool call, whatever its text. */
  lemma TextQuiet(s: string, o: nat, b: Block)
    requires b.TextBlock? && BlockOk(b) && Has(s, o, BlockText(b))
    ensures o + |BlockText(b)| <= |s| && Quiet(s, o, o + |BlockText(b)|)
  {
    hide Has, StringAt, Lit, IsToolUse, AfterColon, RawOk;
    HasSplit(s, o, TEXT_HEAD, Lit(b.text) + ['}']);
    HasSplit(s, o + 22, Lit(b.text), ['}']);
    TextHead(s, o);
    LitString(s, o + 22, b.text);
    LitLength(b.text);
    var c := o + 22 + |Lit(b.text)| - 1;
    HasChar(s, c + 1, '}');
    forall t | o <= t < c + 2 && Has(s, t, TYPE) ensures QuietAt(s, t, c + 2) {
      WordQuotes(s, t, "type");
      if o + 22 <= t <= c {
        QuotedEnds(s, o + 22, c, t, "type");
        StopHere(s, c + 1);
        NotToolUse(s, t);
      } else {
        TypeInHead(s, o, c, t);
      }
    }
  }

  lemma TextHead(s: string, o: nat)
    requires Has(s, o, TEXT_HEAD)
    ensures o + 22 <= |s| && s[o] == '{' && Has(s, o + 1, Quoted("type")) && s[o + 7] == ':' && Has(s, o + 8, Quoted("text"))
    ensures s[o + 14] == ',' && Has(s, o + 15, Quoted("text")) && s[o + 21] == ':'
  {
    hide Has;
    assert TEXT_HEAD == ['{'] + (TYPE + ([':'] + (Quoted("text") + ([','] + (Quoted("text") + [':'])))));
    HasSplit(s, o, ['{'], TYPE + ([':'] + (Quoted("text") + ([','] + (Quoted("text") + [':'])))));
    HasSplit(s, o + 1, TYPE, [':'] + (Quoted("text") + ([','] + (Quoted("text") + [':']))));
    HasSplit(s, o + 7, [':'], Quoted("text") + ([','] + (Quoted("text") + [':'])));
    HasSplit(s, o + 8, Quoted("text"), [','] + (Quoted("text") + [':']));
    HasSplit(s, o + 14, [','], Quoted("text") + [':']);
    HasSplit(s, o + 15, Quoted("text"), [':']);
    HasChar(s, o, '{');
    HasChar(s, o + 7, ':');
    HasChar(s, o + 14, ',');
    HasChar(s, o + 21, ':');
  }

  lemma NotToolUse(s: string, t: nat)
    requires t + 6 < |s| && AfterColon(s, t + 6) == t + 6 && s[t + 6] != '"'
    ensures !IsToolUse(s, t)
  {
    hide AfterColon;
  }

  /** Of the words of a text block's head only the first is "type", and it is followed by "text". */
  lemma TypeInHead(s: string, o: nat, c: nat, t: nat)
    requires Has(s, o, TEXT_HEAD) && o + 22 < c + 1 < |s| && s[c + 1] == '}' && Has(s, t, TYPE) && t + 6 <= |s|
    requires o <= t < o + 22 || t == c + 1
    ensures t == o + 1 && !IsToolUse(s, t)
  {
    hide Has, IsToolUse, AfterColon;
    TextHead(s, o);
    WordQuotes(s, t, "type");
    WordQuotes(s, o + 1, "type");
    WordQuotes(s, o + 8, "text");
    WordQuotes(s, o + 15, "text");
    assert s[t + 1] == 't' && s[t + 2] == 'y';
    assert t == o + 1;
    ColonThen(s, o + 7);
    NoToolWord(s, t);
  }

  lemma NoToolWord(s: string, t: nat)
    requires t + 10 < |s| && AfterColon(s, t + 6) == t + 7 && s[t + 9] == 'e'
    ensures !IsToolUse(s, t)
  {
    hide AfterColon, Has;
    if Has(s, t + 8, "tool_use") { HasAt(s, t + 8, "tool_use", 1); }
  }

  /** A tool_use block is read as its call, and parsing goes on behind it. */
  lemma ToolParsed(s: string, o: nat, b: Block, n: nat)
    requires b.ToolBlock? && BlockOk(b) && Has(s, o, BlockText(b)) && n > 0
    ensures Parse(s, o, n) ==
      Outcome([CallOf(b)] + Parse(s, o + |BlockText(b)|, n - 1).calls, Parse(s, o + |BlockText(b)|, n - 1).pastEnd)
  {
    hide Parse, Has, IsToolUse, Find, Back, Scan, Overruns, ReadCall, StringAt, Cut, Out, Lit, BlockText, LooksLike, Extract, BlockOk;
    var x, y, z := ToolLayout(s, o, b);
    ToolStart(b);
    var rest :| BlockText(b) == CALL_START + rest;
    HasSplit(s, o, CALL_START, rest);
    CallStarts(s, o);
    BlockIsJson(b);
    MatchingClose(s, o, BlockJson(b));
    ParseCall(s, o, n, o + 1, o, z);
    CallRead(s, o, b);
  }

  /** Where a tool_use block starts the parser takes it for a call. */
  lemma CallStarts(s: string, o: nat)
    requires Has(s, o, CALL_START)
    ensures o + 17 <= |s| && Find(s, o, TYPE) == o + 1 && IsToolUse(s, o + 1) && Back(s, o + 1) == o && At(s, o) == '{'
  {
    hide Has, Find;
    assert CALL_START == ['{'] + (TYPE + ([':'] + (['"'] + "tool_use")));
    HasSplit(s, o, ['{'], TYPE + ([':'] + (['"'] + "tool_use")));
    HasSplit(s, o + 1, TYPE, [':'] + (['"'] + "tool_use"));
    HasSplit(s, o + 7, [':'], ['"'] + "tool_use");
    HasSplit(s, o + 8, ['"'], "tool_use");
    HasFits(s, o + 9, "tool_use");
    HasChar(s, o, '{');
    HasChar(s, o + 7, ':');
    HasChar(s, o + 8, '"');
    assert Back(s, o) == o;
    WordQuotes(s, o + 1, "type");
    NoTypeHere(s, o);
    FindIs(s, o, TYPE, o + 1);
    ColonThen(s, o + 7);
  }

  lemma ToolStart(b: Block)
    requires b.ToolBlock?
    ensures exists rest :: BlockText(b) == CALL_START + rest
  {
    hide Lit, Text;
    var rest := "\",\"id\":" + (Lit(b.id) + (",\"name\":" + (Lit(b.name) + (",\"input\":" + (Text(b.input) + "}")))));
    assert TOOL_HEAD == CALL_START + "\",\"id\":";
    assert BlockText(b) == CALL_START + rest;
  }

  lemma CallRead(s: string, o: nat, b: Block)
    requires b.ToolBlock? && BlockOk(b) && Has(s, o, BlockText(b))
    ensures o <= |s| && ReadCall(s, o, o + |BlockText(b)| - 1) == CallOf(b) && !Overruns(s, o)
  {
    hide Has, Find, StringAt, Cut, Out, BlockText, LooksLike, Extract, ReadInput, FindKey, Layout, Lit, Text, RawOk, JsonOk;
    var x, y, z := ToolLayout(s, o, b);
    FindId(s, o, x, y, z);
    FindName(s, o, x, y, z);
    FieldRead(s, o + 24, b.id);
    FieldRead(s, x + 8, b.name);
    InputRead(s, o, b);
  }

  lemma FieldRead(s: string, a: nat, raw: Raw)
    requires RawOk(raw) && Has(s, a, Lit(raw))
    ensures a + 1 <= |s| && Extract(s, a + 1) == Out(raw)
  {
    hide Has, Extract, Out;
    assert Lit(raw) == ['"'] + (RawText(raw) + ['"']);
    HasSplit(s, a, ['"'], RawText(raw) + ['"']);
    HasSplit(s, a + 1, RawText(raw), ['"']);
    HasChar(s, a, '"');
    HasChar(s, a + 1 + |RawText(raw)|, '"');
    ExtractRaw(s, a + 1, raw);
  }

  ghost function Calls(bs: seq<Block>): seq<Call> {
    if bs == [] then [] else (if bs[0].ToolBlock? then [CallOf(bs[0])] else []) + Calls(bs[1..])
  }

  ghost predicate BlocksOk(bs: seq<Block>) { forall i :: 0 <= i < |bs| ==> BlockOk(bs[i]) }

  function Upto<T>(x: seq<T>, n: nat): seq<T> { x[..Min(|x|, n)] }

  lemma NoTypeHere(s: string, i: nat)
    requires i < |s| && s[i] != '"'
    ensures !Has(s, i, TYPE)
  {
    hide Has;
    if Has(s, i, TYPE) { WordQuotes(s, i, "type"); }
  }

  lemma CommaQuiet(s: string, i: nat)
    requires i < |s| && s[i] != '"'
    ensures Quiet(s, i, i + 1)
  {
    hide Has;
    forall t | i <= t < i + 1 ensures !Has(s, t, TYPE) { NoTypeHere(s, t); }
  }

  /** The blocks from o on are read in order, up to n calls. */
  lemma {:induction false} BlocksParsed(s: string, o: nat, bs: seq<Block>, n: nat)
    requires BlocksOk(bs) && Has(s, o, BlocksText(bs)) && Quiet(s, o + |BlocksText(bs)|, |s|)
    ensures Parse(s, o, n) == Outcome(Upto(Calls(bs), n), false)
    decreases |bs|
  {
    hide Parse, Has, BlockText, CallOf, Quiet, BlockOk, QuietAt;
    HasFits(s, o, BlocksText(bs));
    if bs == [] {
      QuietSkip(s, o, |s|, n);
      ParseDone(s, |s|, n);
      EmptyOutcome(Parse(s, o, n));
    } else {
      var b, rest := bs[0], if |bs| == 1 then "" else "," + BlocksText(bs[1..]);
      assert BlockOk(b);
      var e := o + |BlockText(b)|;
      HasSplit(s, o, BlockText(b), rest);
      HasFits(s, e, rest);
      if |bs| > 1 {
        HasSplit(s, e, [','], BlocksText(bs[1..]));
        HasChar(s, e, ',');
        CommaQuiet(s, e);
      } else {
        NothingQuiet(s, e);
      }
      var next := if |bs| == 1 then e else e + 1;
      assert BlocksOk(bs[1..]);
      assert Has(s, next, BlocksText(bs[1..])) by { HasNothing(s, next); }
      BlockParsed(s, o, b, e, next, bs, n);
    }
  }

  lemma HasNothing(s: string, i: nat)
    requires i <= |s|
    ensures Has(s, i, "")
  {
  }

  lemma NothingQuiet(s: string, i: nat)
    requires i <= |s|
    ensures Quiet(s, i, i)
  {
  }

  lemma EmptyOutcome(r: Outcome)
    requires r.calls == [] && !r.pastEnd
    ensures r == Outcome([], false)
  {
  }

  lemma {:induction false} BlockParsed(s: string, o: nat, b: Block, e: nat, next: nat, bs: seq<Block>, n: nat)
    requires bs != [] && b == bs[0] && BlocksOk(bs) && BlockOk(b) && Has(s, o, BlockText(b)) && e == o + |BlockText(b)| <= next <= |s|
    requires Has(s, next, BlocksText(bs[1..])) && Quiet(s, next + |BlocksText(bs[1..])|, |s|) && Quiet(s, e, next)
    ensures Parse(s, o, n) == Outcome(Upto(Calls(bs), n), false)
    decreases |bs|, 0
  {
    hide Parse, Has, BlockText, CallOf, Quiet, BlockOk, QuietAt, BlocksText;
    assert BlocksOk(bs[1..]);
    var tail := Calls(bs[1..]);
    match b
    case TextBlock(_) =>
      TextQuiet(s, o, b);
      QuietSkip(s, o, e, n);
      QuietSkip(s, e, next, n);
      BlocksParsed(s, next, bs[1..], n);
      assert Calls(bs) == tail;
    case ToolBlock(_, _, _) =>
      if n == 0 {
        ParseDone(s, o, n);
        EmptyOutcome(Parse(s, o, n));
      } else {
        ToolParsed(s, o, b, n);
        QuietSkip(s, e, next, n - 1);
        BlocksParsed(s, next, bs[1..], n - 1);
        assert [CallOf(b)] + Upto(tail, n - 1) == Upto([CallOf(b)] + tail, n);
      }
  }

  /** json_parse_tool_calls returns exactly the tool_use blocks of the response, in order and up to the
      limit, whatever the texts and the inputs contain. The input of a call is missing exactly when its id
      or its name looks like the key. */
  lemma ToolCallsExact(head: string, bs: seq<Block>, tail: string, n: nat)
    requires BlocksOk(bs)
    requires var s := head + ("[" + (BlocksText(bs) + ("]" + tail))); Quiet(s, 0, |head|) && Quiet(s, |s| - |tail|, |s|)
    ensures Parse(head + ("[" + (BlocksText(bs) + ("]" + tail))), 0, n) == Outcome(Upto(Calls(bs), n), false)
  {
    hide Parse, Has, BlocksText, QuietAt, Quiet;
    var s := head + ("[" + (BlocksText(bs) + ("]" + tail)));
    var e := ResponseParts(s, head, bs, tail);
    QuietSkip(s, 0, |head|, n);
    QuietSkip(s, |head|, |head| + 1, n);
    BlocksParsed(s, |head| + 1, bs, n);
  }

  lemma ResponseParts(s: string, head: string, bs: seq<Block>, tail: string) returns (e: nat)
    requires s == head + ("[" + (BlocksText(bs) + ("]" + tail))) && Quiet(s, |s| - |tail|, |s|)
    ensures e == |head| + 1 + |BlocksText(bs)| <= |s| && Has(s, |head| + 1, BlocksText(bs))
    ensures Quiet(s, |head|, |head| + 1) && Quiet(s, e, |s|)
  {
    hide Has, BlocksText, QuietAt, Quiet;
    assert Has(s, 0, s) by { HasAll(s); }
    HasSplit(s, 0, head, ['['] + (BlocksText(bs) + ([']'] + tail)));
    HasSplit(s, |head|, ['['], BlocksText(bs) + ([']'] + tail));
    HasSplit(s, |head| + 1, BlocksText(bs), [']'] + tail);
    e := |head| + 1 + |BlocksText(bs)|;
    HasSplit(s, e, [']'], tail);
    HasChar(s, |head|, '[');
    HasChar(s, e, ']');
    CommaQuiet(s, |head|);
    CommaQuiet(s, e);
    QuietJoin(s, e, e + 1, |s|);
  }

  lemma HasAll(s: string)
    ensures Has(s, 0, s)
  {
  }

  lemma QuietJoin(s: string, a: nat, b: nat, c: nat)
    requires a <= b <= c <= |s| && Quiet(s, a, b) && Quiet(s, b, c)
    ensures Quiet(s, a, c)
  {
    hide Has, IsToolUse;
    forall t | a <= t < c && Has(s, t, TYPE) ensures QuietAt(s, t, c) {
      if t < b { assert QuietAt(s, t, b); } else { assert QuietAt(s, t, c); }
    }
  }

  /** Over plain characters "looks like" is equality. */
  lemma PlainClash(w: string, key: string)
    requires Word(key) && '"' !in w
    ensures LooksLike(Plains(w), key) <==> w == key
  {
    PlainsText(w);
    var L := Quoted(w);
    assert Lit(Plains(w)) == L;
    if LooksLike(Plains(w), key) {
      var n := |L| - |key| - 2;
      assert L[n] == L[n..][0] == '"';
      assert L[n..] == L;
      assert w == L[1..|L| - 1] && key == Quoted(key)[1..|key| + 1];
    }
  }
}
