/**
 JSON documents as they are written: RFC 8259 sections 2 to 7, with Python's `NaN`, `Infinity` and
 `-Infinity`. `Show` is the text of a document and `Meaning` its value.

 Nothing here refers to how a text is decoded; of the decoder only the type of values is used.
 */
module JsonText {
  import JsonDecoder

  type Json = JsonDecoder.Json

  // ----- strings

  /** A character of a string as written: itself, a short escape, or the escape of a UTF-16 unit. */
  datatype Piece = Plain(c: char) | Short(c: char) | Unit(hex: string)

  function HexDigit(c: char): int {
    match c
    case '0' => 0 case '1' => 1 case '2' => 2 case '3' => 3 case '4' => 4
    case '5' => 5 case '6' => 6 case '7' => 7 case '8' => 8 case '9' => 9
    case 'a' => 10 case 'b' => 11 case 'c' => 12 case 'd' => 13 case 'e' => 14 case 'f' => 15
    case 'A' => 10 case 'B' => 11 case 'C' => 12 case 'D' => 13 case 'E' => 14 case 'F' => 15
    case _ => -1
  }

  predicate GoodHex(hex: string) {
    |hex| == 4 && forall i :: 0 <= i < 4 ==> HexDigit(hex[i]) >= 0
  }

  /** The UTF-16 unit four hexadecimal digits name. */
  function UnitOf(hex: string): nat
    requires GoodHex(hex)
  {
    4096 * HexDigit(hex[0]) + 256 * HexDigit(hex[1]) + 16 * HexDigit(hex[2]) + HexDigit(hex[3])
  }

  predicate IsHigh(u: nat) {
    0xd800 <= u < 0xdc00
  }

  predicate IsLow(u: nat) {
    0xdc00 <= u < 0xe000
  }

  /** The two units of a code point beyond the first 65536. */
  function UnitsOf(point: nat): (nat, nat)
    requires 0x10000 <= point < 0x110000
  {
    (0xd800 + (point - 0x10000) / 1024, 0xdc00 + (point - 0x10000) % 1024)
  }

  function Together(high: nat, low: nat): nat
    requires IsHigh(high) && IsLow(low)
  {
    0x10000 + 1024 * (high - 0xd800) + (low - 0xdc00)
  }

  /** The point two units name together is the one that is written as those two. */
  lemma TogetherIsUnitsOf(high: nat, low: nat)
    requires IsHigh(high) && IsLow(low)
    ensures 0x10000 <= Together(high, low) < 0x110000 && UnitsOf(Together(high, low)) == (high, low)
  {
  }

  /** What the short escapes stand for. */
  function ShortPoint(c: char): int {
    match c
    case '"' => 0x22
    case '\\' => 0x5c
    case '/' => 0x2f
    case 'b' => 0x8
    case 'f' => 0xc
    case 'n' => 0xa
    case 'r' => 0xd
    case 't' => 0x9
    case _ => -1
  }

  predicate GoodPiece(p: Piece) {
    match p
    case Plain(c) => c != '"' && c != '\\' && c >= ' '
    case Short(c) => ShortPoint(c) >= 0
    case Unit(hex) => GoodHex(hex)
  }

  predicate GoodPieces(pieces: seq<Piece>) {
    pieces == [] || (GoodPiece(pieces[0]) && GoodPieces(pieces[1..]))
  }

  function ShowPiece(p: Piece): string {
    match p
    case Plain(c) => [c]
    case Short(c) => "\\" + [c]
    case Unit(hex) => "\\u" + hex
  }

  function ShowPieces(pieces: seq<Piece>): string {
    if pieces == [] then "" else ShowPiece(pieces[0]) + ShowPieces(pieces[1..])
  }

  predicate StartsWithPair(pieces: seq<Piece>) {
    && |pieces| >= 2 && pieces[0].Unit? && pieces[1].Unit?
    && GoodHex(pieces[0].hex) && GoodHex(pieces[1].hex)
    && IsHigh(UnitOf(pieces[0].hex)) && IsLow(UnitOf(pieces[1].hex))
  }

  function PointOf(p: Piece): nat
    requires GoodPiece(p)
  {
    match p
    case Plain(c) => c as nat
    case Short(c) => ShortPoint(c)
    case Unit(hex) => UnitOf(hex)
  }

  /** The code points of a string: a high unit and a low one right after it are one. */
  function Points(pieces: seq<Piece>): seq<nat>
    requires GoodPieces(pieces)
  {
    if pieces == [] then []
    else if StartsWithPair(pieces) then
      assert GoodPieces(pieces[1..]) && pieces[1..][1..] == pieces[2..];
      [Together(UnitOf(pieces[0].hex), UnitOf(pieces[1].hex))] + Points(pieces[2..])
    else [PointOf(pieces[0])] + Points(pieces[1..])
  }

  function ShowString(pieces: seq<Piece>): string {
    "\"" + ShowPieces(pieces) + "\""
  }

  // ----- numbers

  /** A sign, digits without a leading zero, and perhaps a fraction and an exponent. */
  datatype Numeral = Numeral(minus: bool, whole: string, fraction: Fraction, exponent: Exponent)

  datatype Fraction = NoFraction | Point(digits: string)

  datatype Exponent = NoExponent | Power(mark: char, sign: string, digits: string)

  predicate AllDigits(s: string) {
    s != "" && forall i :: 0 <= i < |s| ==> '0' <= s[i] <= '9'
  }

  predicate GoodNumeral(n: Numeral) {
    && AllDigits(n.whole) && (n.whole[0] == '0' ==> n.whole == "0")
    && (n.fraction.Point? ==> AllDigits(n.fraction.digits))
    && (n.exponent.Power? ==>
         && (n.exponent.mark == 'e' || n.exponent.mark == 'E')
         && (n.exponent.sign == "" || n.exponent.sign == "+" || n.exponent.sign == "-")
         && AllDigits(n.exponent.digits))
  }

  function ShowFraction(f: Fraction): string {
    if f.Point? then "." + f.digits else ""
  }

  function ShowExponent(e: Exponent): string {
    if e.Power? then [e.mark] + e.sign + e.digits else ""
  }

  function ShowUnsigned(n: Numeral): string {
    n.whole + (ShowFraction(n.fraction) + ShowExponent(n.exponent))
  }

  function ShowNumeral(n: Numeral): string {
    (if n.minus then "-" else "") + ShowUnsigned(n)
  }

  // ----- documents

  predicate IsBlank(c: char) {
    c == ' ' || c == '\t' || c == '\n' || c == '\r'
  }

  predicate Blank(s: string) {
    forall i :: 0 <= i < |s| ==> IsBlank(s[i])
  }

  /** A document as written. Space may stand around every item, key, colon and value. */
  datatype Doc =
    | Word(name: string)
    | Num(numeral: Numeral)
    | Str(pieces: seq<Piece>)
    | Arr(space: string, items: seq<Item>)
    | Obj(space: string, members: seq<Member>)

  datatype Item = Item(before: string, value: Doc, after: string)

  datatype Member = Member(
    beforeKey: string, key: seq<Piece>, afterKey: string, before: string, value: Doc, after: string)

  const WORDS: map<string, Json> := map[
    "null" := JsonDecoder.Null, "true" := JsonDecoder.Bool(true), "false" := JsonDecoder.Bool(false),
    "NaN" := JsonDecoder.Number("NaN"), "Infinity" := JsonDecoder.Number("Infinity"),
    "-Infinity" := JsonDecoder.Number("-Infinity")]

  predicate Good(d: Doc) {
    match d
    case Word(name) => name in WORDS
    case Num(numeral) => GoodNumeral(numeral)
    case Str(pieces) => GoodPieces(pieces)
    case Arr(space, items) => Blank(space) && GoodItems(items)
    case Obj(space, members) => Blank(space) && GoodMembers(members)
  }

  predicate GoodItem(item: Item) {
    Blank(item.before) && Good(item.value) && Blank(item.after)
  }

  predicate GoodItems(items: seq<Item>) {
    items == [] || (GoodItem(items[0]) && GoodItems(items[1..]))
  }

  predicate GoodMembers(members: seq<Member>) {
    members == [] || (GoodMember(members[0]) && GoodMembers(members[1..]))
  }

  predicate GoodMember(m: Member) {
    && Blank(m.beforeKey) && GoodPieces(m.key) && Blank(m.afterKey)
    && Blank(m.before) && Good(m.value) && Blank(m.after)
  }

  function Show(d: Doc): string {
    match d
    case Word(name) => name
    case Num(numeral) => ShowNumeral(numeral)
    case Str(pieces) => ShowString(pieces)
    case Arr(space, items) => "[" + (if items == [] then space else ShowItems(items)) + "]"
    case Obj(space, members) => "{" + (if members == [] then space else ShowMembers(members)) + "}"
  }

  function ShowItem(item: Item): string {
    item.before + Show(item.value) + item.after
  }

  /** Items with a comma between any two. */
  function ShowItems(items: seq<Item>): string
    requires items != []
  {
    if |items| == 1 then ShowItem(items[0]) else ShowItem(items[0]) + "," + ShowItems(items[1..])
  }

  function ShowMember(m: Member): string {
    m.beforeKey + ShowString(m.key) + m.afterKey + ":" + m.before + Show(m.value) + m.after
  }

  function ShowMembers(members: seq<Member>): string
    requires members != []
  {
    if |members| == 1 then ShowMember(members[0]) else ShowMember(members[0]) + "," + ShowMembers(members[1..])
  }

  // ----- what they mean

  function Meaning(d: Doc): Json
    requires Good(d)
  {
    match d
    case Word(name) => WORDS[name]
    case Num(numeral) => JsonDecoder.Number(ShowNumeral(numeral))
    case Str(pieces) => JsonDecoder.Text(Points(pieces))
    case Arr(_, items) => JsonDecoder.Array(Meanings(items))
    case Obj(_, members) => JsonDecoder.Object(Fields(members))
  }

  function Meanings(items: seq<Item>): (r: seq<Json>)
    requires GoodItems(items)
    ensures |r| == |items|
  {
    if items == [] then []
    else
      assert GoodItem(items[0]);
      [Meaning(items[0].value)] + Meanings(items[1..])
  }

  /** The members by their keys; of members with the same key the last one counts. */
  function Fields(members: seq<Member>): map<seq<nat>, Json>
    requires GoodMembers(members)
  {
    if members == [] then map[]
    else
      assert GoodMember(members[0]);
      map[Points(members[0].key) := Meaning(members[0].value)] + Fields(members[1..])
  }

  predicate HasKey(members: seq<Member>, key: seq<nat>)
    requires GoodMembers(members)
  {
    members != [] &&
      assert GoodMember(members[0]);
      (Points(members[0].key) == key || HasKey(members[1..], key))
  }

  /** A key is there exactly when a member has it. */
  lemma {:induction false} KeysOfMembers(members: seq<Member>, key: seq<nat>)
    requires GoodMembers(members)
    ensures key in Fields(members) <==> HasKey(members, key)
  {
    if members != [] {
      KeysOfMembers(members[1..], key);
    }
  }

  lemma {:induction false} GoodParts(before: seq<Member>, m: Member, after: seq<Member>)
    requires GoodMembers(before + [m] + after)
    ensures GoodMember(m) && GoodMembers(after)
  {
    var all := before + [m] + after;
    if before == [] {
      assert all[0] == m && all[1..] == after;
    } else {
      assert all[1..] == before[1..] + [m] + after;
      GoodParts(before[1..], m, after);
    }
  }

  /** A repeated key has the value of the last member with it. */
  lemma {:induction false} TheLastCounts(before: seq<Member>, m: Member, after: seq<Member>)
    requires GoodMembers(before + [m] + after)
    requires GoodMember(m) && GoodMembers(after) && !HasKey(after, Points(m.key))
    ensures Points(m.key) in Fields(before + [m] + after)
    ensures Fields(before + [m] + after)[Points(m.key)] == Meaning(m.value)
  {
    var all := before + [m] + after;
    if before == [] {
      assert all[0] == m && all[1..] == after;
      KeysOfMembers(after, Points(m.key));
    } else {
      assert all[1..] == before[1..] + [m] + after;
      TheLastCounts(before[1..], m, after);
    }
  }
}
