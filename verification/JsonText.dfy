/** JSON texts as RFC 8259 defines them: every way of writing a value, with any escapes and any
    insignificant white space. A character is one byte of the text. */
module JsonText {
  import opened Base

  /** One character of a JSON string as it is written (section 7 of RFC 8259). `Pair` is a surrogate pair. */
  datatype Unit = Plain(c: char) | Short(c: char) | Hex(digits: string) | Pair(high: string, low: string)

  predicate HexOk(digits: string) { |digits| == 4 && forall i :: 0 <= i < 4 ==> IsHex(digits[i]) }

  predicate UnitOk(u: Unit) {
    match u
    case Plain(c) => c >= ' ' && c != '"' && c != '\\'
    case Short(c) => c in "\"\\/bfnrt"
    case Hex(digits) => HexOk(digits)
    case Pair(high, low) => HexOk(high) && HexOk(low)
  }

  function UnitText(u: Unit): (t: string)
    ensures |t| > 0
  {
    match u
    case Plain(c) => [c]
    case Short(c) => ['\\', c]
    case Hex(digits) => "\\u" + digits
    case Pair(high, low) => "\\u" + high + "\\u" + low
  }

  type Raw = seq<Unit>

  ghost predicate RawOk(raw: Raw) { forall i :: 0 <= i < |raw| ==> UnitOk(raw[i]) }

  /** The text between the quotes. */
  function RawText(raw: Raw): string {
    if raw == [] then "" else UnitText(raw[0]) + RawText(raw[1..])
  }

  function Lit(raw: Raw): string { "\"" + RawText(raw) + "\"" }

  predicate IsSpace(c: char) { c == ' ' || c == '\t' || c == '\n' || c == '\r' }

  ghost predicate Spaces(t: string) { forall i :: 0 <= i < |t| ==> IsSpace(t[i]) }

  /** A value with the white space its text has: `Padded` puts some around any value. `Atom` is a number or
      one of the three names. */
  datatype Json =
    | Atom(text: string)
    | Str(raw: Raw)
    | Arr(pad: string, items: Items)
    | Obj(pad: string, members: Members)
    | Padded(before: string, value: Json, after: string)

  datatype Items = NoItems | Item(head: Json, tail: Items)

  datatype Members = NoMembers | Member(before: string, key: Raw, after: string, value: Json, rest: Members)

  predicate AtomChar(c: char) { c != '\0' && c !in "\"{}[]" }

  ghost predicate JsonOk(v: Json) {
    match v
    case Atom(t) => forall i :: 0 <= i < |t| ==> AtomChar(t[i])
    case Str(raw) => RawOk(raw)
    case Arr(pad, items) => Spaces(pad) && ItemsOk(items)
    case Obj(pad, members) => Spaces(pad) && MembersOk(members)
    case Padded(before, w, after) => Spaces(before) && JsonOk(w) && Spaces(after)
  }

  ghost predicate ItemsOk(items: Items) {
    match items
    case NoItems => true
    case Item(v, rest) => JsonOk(v) && ItemsOk(rest)
  }

  ghost predicate MembersOk(members: Members) {
    match members
    case NoMembers => true
    case Member(before, key, after, v, rest) => Spaces(before) && RawOk(key) && Spaces(after) && JsonOk(v) && MembersOk(rest)
  }

  function Text(v: Json): string {
    match v
    case Atom(t) => t
    case Str(raw) => Lit(raw)
    case Arr(pad, items) => "[" + (pad + (ItemsText(items) + "]"))
    case Obj(pad, members) => "{" + (pad + (MembersText(members) + "}"))
    case Padded(before, w, after) => before + (Text(w) + after)
  }

  function ItemsText(items: Items): string {
    match items
    case NoItems => ""
    case Item(v, rest) => Text(v) + if rest.NoItems? then "" else "," + ItemsText(rest)
  }

  function MembersText(members: Members): string {
    match members
    case NoMembers => ""
    case Member(before, key, after, v, rest) =>
      before + (Lit(key) + (after + (":" + (Text(v) + if rest.NoMembers? then "" else "," + MembersText(rest)))))
  }

  // ---- what the characters of a string mean

  function CodeUnit(d: string): nat
    requires HexOk(d)
  {
    ((HexValue(d[0]) * 16 + HexValue(d[1])) * 16 + HexValue(d[2])) * 16 + HexValue(d[3])
  }

  function Byte(n: nat): char
    requires n < 256
  {
    n as char
  }

  /** UTF-8 of one code unit outside the surrogates. */
  function Utf8(n: nat): (s: string)
    requires n < 0x1_0000
    ensures 1 <= |s| <= 3
  {
    if n < 0x80 then [Byte(n)]
    else if n < 0x800 then [Byte(0xC0 + n / 64), Byte(0x80 + n % 64)]
    else [Byte(0xE0 + n / 4096), Byte(0x80 + n / 64 % 64), Byte(0x80 + n % 64)]
  }

  /** UTF-8 of a surrogate pair. */
  function Utf8Pair(high: nat, low: nat): (s: string)
    ensures |s| == 4
  {
    var n := 0x1_0000 + high % 1024 * 1024 + low % 1024;
    [Byte(0xF0 + n / 262144), Byte(0x80 + n / 4096 % 64), Byte(0x80 + n / 64 % 64), Byte(0x80 + n % 64)]
  }

  function ShortMeaning(c: char): char {
    match c
    case 'b' => 8 as char
    case 'f' => 12 as char
    case 'n' => '\n'
    case 'r' => '\r'
    case 't' => '\t'
    case _ => c
  }

  function UnitMeaning(u: Unit): string
    requires UnitOk(u)
  {
    match u
    case Plain(c) => [c]
    case Short(c) => [ShortMeaning(c)]
    case Hex(digits) => Utf8(CodeUnit(digits))
    case Pair(high, low) => Utf8Pair(CodeUnit(high), CodeUnit(low))
  }

  /** The string a literal stands for (section 7 of RFC 8259). */
  ghost function Meaning(raw: Raw): string
    requires RawOk(raw)
  {
    if raw == [] then "" else UnitMeaning(raw[0]) + Meaning(raw[1..])
  }
}
