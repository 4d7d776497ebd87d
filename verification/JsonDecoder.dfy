/**
 The JSON decoder the array reader calls: the standard library's `raw_decode`, on the text from
 the current position on. It reads RFC 8259 values (sections 3 to 7) plus Python's `NaN`,
 `Infinity` and `-Infinity`.

 A result carries *text* instead of an index. `Ok` holds what follows the value, `Bad` holds the
 text from the error's position to the end, so a position in a document `doc` is
 `|doc| - |rest|` or `|doc| - |tail|`.
 */
module JsonDecoder {

  // A string value is a sequence of code points, because an escape can name a lone surrogate,
  // which is not a `char`. A number keeps its spelling; what it is worth is a function of that.
  datatype Json =
    | Null
    | Bool(b: bool)
    | Number(lexeme: string)
    | Text(points: seq<nat>)
    | Array(items: seq<Json>)
    | Object(fields: map<seq<nat>, Json>)

  datatype Decoded<+T> =
    | Ok(value: T, rest: string)
    | Bad(unterminated: bool, tail: string)

  // ----- characters

  predicate IsSpace(c: char) {
    c == ' ' || c == '\t' || c == '\n' || c == '\r'
  }

  function SkipSpace(s: string): (r: string)
    ensures |r| <= |s|
  {
    if s != "" && IsSpace(s[0]) then SkipSpace(s[1..]) else s
  }

  predicate IsDigit(c: char) {
    '0' <= c <= '9'
  }

  predicate IsHex(c: char) {
    IsDigit(c) || 'a' <= c <= 'f' || 'A' <= c <= 'F'
  }

  function HexValue(c: char): nat
    requires IsHex(c)
  {
    if IsDigit(c) then c as int - '0' as int
    else if 'a' <= c <= 'f' then 10 + (c as int - 'a' as int)
    else 10 + (c as int - 'A' as int)
  }

  predicate IsHex4(s: string)
    requires |s| >= 4
  {
    IsHex(s[0]) && IsHex(s[1]) && IsHex(s[2]) && IsHex(s[3])
  }

  function Hex4(s: string): nat
    requires |s| >= 4 && IsHex4(s)
  {
    ((HexValue(s[0]) * 16 + HexValue(s[1])) * 16 + HexValue(s[2])) * 16 + HexValue(s[3])
  }

  predicate IsHighSurrogate(u: nat) {
    0xd800 <= u <= 0xdbff
  }

  predicate IsLowSurrogate(u: nat) {
    0xdc00 <= u <= 0xdfff
  }

  function JoinSurrogates(high: nat, low: nat): nat
    requires IsHighSurrogate(high) && IsLowSurrogate(low)
  {
    0x10000 + (high - 0xd800) * 0x400 + (low - 0xdc00)
  }

  predicate IsSimpleEscape(c: char) {
    c in "\"\\/bfnrt"
  }

  function SimpleEscape(c: char): nat
    requires IsSimpleEscape(c)
  {
    match c
    case 'b' => 8
    case 'f' => 12
    case 'n' => 10
    case 'r' => 13
    case 't' => 9
    case _ => c as nat
  }

  // ----- strings

  function Prepend(u: nat, r: Decoded<seq<nat>>): Decoded<seq<nat>> {
    match r
    case Ok(v, rest) => Ok([u] + v, rest)
    case Bad(unterminated, tail) => Bad(unterminated, tail)
  }

  /** The characters of a string up to its closing quote. `open` is the text from the opening
      quote, where a string cut by the end of the text is reported. */
  function Characters(open: string, s: string): (r: Decoded<seq<nat>>)
    ensures r.Ok? ==> |r.rest| < |s|
    decreases |s|, 0
  {
    if s == "" then Bad(true, open)
    else if s[0] == '"' then Ok([], s[1..])
    else if s[0] != '\\' then
      if s[0] as int <= 0x1f then Bad(false, s)
      else Prepend(s[0] as nat, Characters(open, s[1..]))
    else if |s| == 1 then Bad(true, open)
    else if s[1] != 'u' then
      if IsSimpleEscape(s[1]) then Prepend(SimpleEscape(s[1]), Characters(open, s[2..]))
      else Bad(false, s)
    // One character more than the four digits has to be there.
    else if |s| <= 6 || !IsHex4(s[2..6]) then Bad(false, s[1..])
    else AfterEscape(open, Hex4(s[2..6]), s[6..])
  }

  /** After an escape that names `u`; two of them can name one character together. */
  function AfterEscape(open: string, u: nat, s: string): (r: Decoded<seq<nat>>)
    ensures r.Ok? ==> |r.rest| < |s|
    decreases |s|, 1
  {
    if IsHighSurrogate(u) && |s| > 6 && s[0] == '\\' && s[1] == 'u' then
      if !IsHex4(s[2..6]) then Bad(false, s[1..])
      else if IsLowSurrogate(Hex4(s[2..6])) then
        Prepend(JoinSurrogates(u, Hex4(s[2..6])), Characters(open, s[6..]))
      else Prepend(u, Characters(open, s))
    else Prepend(u, Characters(open, s))
  }

  // ----- numbers

  function Digits(s: string): (r: string)
    ensures |r| <= |s|
    ensures s != "" && IsDigit(s[0]) ==> |r| < |s|
  {
    if s != "" && IsDigit(s[0]) then Digits(s[1..]) else s
  }

  function Fraction(s: string): (r: string)
    ensures |r| <= |s|
  {
    if |s| >= 2 && s[0] == '.' && IsDigit(s[1]) then Digits(s[1..]) else s
  }

  function ExponentDigits(s: string): (r: string)
    requires s != ""
    ensures |r| < |s|
  {
    if |s| >= 2 && (s[1] == '+' || s[1] == '-') then s[2..] else s[1..]
  }

  predicate IsExponentMark(c: char) {
    c == 'e' || c == 'E'
  }

  function Exponent(s: string): (r: string)
    ensures |r| <= |s|
  {
    if s == "" || !IsExponentMark(s[0]) then s
    else
      var d := ExponentDigits(s);
      if d != "" && IsDigit(d[0]) then Digits(d) else s
  }

  function Unsigned(s: string): (r: string)
    requires s != ""
    ensures |r| <= |s|
  {
    if s[0] == '-' then s[1..] else s
  }

  function Whole(u: string): (r: string)
    requires u != "" && IsDigit(u[0])
    ensures |r| < |u|
  {
    if u[0] == '0' then u[1..] else Digits(u)
  }

  /** What follows an unsigned number: `0|[1-9][0-9]*`, then a fraction, then an exponent, each
      of the last two only when a digit makes it complete. */
  function AfterUnsigned(u: string): (r: string)
    requires u != "" && IsDigit(u[0])
    ensures |r| < |u|
  {
    Exponent(Fraction(Whole(u)))
  }

  function Numeral(s: string): (r: Decoded<Json>)
    requires s != ""
    ensures r.Ok? ==> |r.rest| < |s|
  {
    var u := Unsigned(s);
    if u == "" || !IsDigit(u[0]) then Bad(false, s)
    else
      var rest := AfterUnsigned(u);
      Ok(Number(s[..|s| - |rest|]), rest)
  }

  // ----- values

  /** The word a value starting with `c` may be, and what it means; empty when there is none. */
  function Word(c: char): (string, Json) {
    match c
    case 'n' => ("null", Null)
    case 't' => ("true", Bool(true))
    case 'f' => ("false", Bool(false))
    case 'N' => ("NaN", Number("NaN"))
    case 'I' => ("Infinity", Number("Infinity"))
    case '-' => ("-Infinity", Number("-Infinity"))
    case _ => ("", Null)
  }

  function Literal(s: string): (r: Decoded<Json>)
    requires s != ""
    ensures r.Ok? ==> |r.rest| < |s|
  {
    var (word, v) := Word(s[0]);
    if word != "" && word <= s then Ok(v, s[|word|..]) else Numeral(s)
  }

  function Value(s: string): (r: Decoded<Json>)
    ensures r.Ok? ==> |r.rest| < |s|
    decreases |s|, 0
  {
    if s == "" then Bad(false, s)
    else if s[0] == '"' then
      match Characters(s, s[1..])
      case Ok(points, rest) => Ok(Text(points), rest)
      case Bad(unterminated, tail) => Bad(unterminated, tail)
    else if s[0] == '{' then
      var r := SkipSpace(s[1..]);
      if r != "" && r[0] == '}' then Ok(Object(map[]), r[1..]) else Members(r, map[])
    else if s[0] == '[' then
      var r := SkipSpace(s[1..]);
      if r != "" && r[0] == ']' then Ok(Array([]), r[1..]) else Items(r, [])
    else Literal(s)
  }

  /** An object's key and its colon; the rest starts at the value. */
  function Key(s: string): (r: Decoded<seq<nat>>)
    ensures r.Ok? ==> |r.rest| < |s|
  {
    if s == "" || s[0] != '"' then Bad(false, s)
    else
      match Characters(s, s[1..])
      case Bad(unterminated, tail) => Bad(unterminated, tail)
      case Ok(key, afterKey) => PastColon(key, afterKey)
  }

  function PastColon(key: seq<nat>, afterKey: string): (r: Decoded<seq<nat>>)
    ensures r.Ok? ==> |r.rest| < |afterKey|
  {
    var colon := SkipSpace(afterKey);
    if colon == "" || colon[0] != ':' then Bad(false, colon) else Ok(key, SkipSpace(colon[1..]))
  }

  /** What follows an item: the closing bracket, a comma, or neither (reported there). */
  datatype Separator = Closed(rest: string) | Comma(rest: string) | Missing(rest: string)

  function Separate(s: string, close: char): (r: Separator)
    ensures |r.rest| <= |s|
    ensures !r.Missing? ==> |r.rest| < |s|
  {
    var next := SkipSpace(s);
    if next != "" && next[0] == close then Closed(next[1..])
    else if next == "" || next[0] != ',' then Missing(next)
    else Comma(SkipSpace(next[1..]))
  }

  /** The members of an object from a key on; `done` are the ones before it. A repeated key
      takes the last value, as in a Python dict. */
  function Members(s: string, done: map<seq<nat>, Json>): (r: Decoded<Json>)
    ensures r.Ok? ==> |r.rest| < |s|
    decreases |s|, 1
  {
    match Key(s)
    case Bad(unterminated, tail) => Bad(unterminated, tail)
    case Ok(key, start) =>
      match Value(start)
      case Bad(unterminated, tail) => Bad(unterminated, tail)
      case Ok(v, afterValue) =>
        var next := Separate(afterValue, '}');
        match next
        case Closed(rest) => Ok(Object(done[key := v]), rest)
        case Missing(tail) => Bad(false, tail)
        case Comma(rest) =>
          Members(rest, done[key := v])
  }

  /** The items of an array from one item on; `done` are the ones before it. */
  function Items(s: string, done: seq<Json>): (r: Decoded<Json>)
    ensures r.Ok? ==> |r.rest| < |s|
    decreases |s|, 1
  {
    match Value(s)
    case Bad(unterminated, tail) => Bad(unterminated, tail)
    case Ok(v, afterValue) =>
      var next := Separate(afterValue, ']');
      match next
      case Closed(rest) => Ok(Array(done + [v]), rest)
      case Missing(tail) => Bad(false, tail)
      case Comma(rest) =>
        Items(rest, done + [v])
  }

  /** `json.loads`: one value and nothing after it but space. */
  function Loads(text: string): Decoded<Json> {
    match Value(SkipSpace(text))
    case Bad(unterminated, tail) => Bad(unterminated, tail)
    case Ok(v, rest) => if SkipSpace(rest) == "" then Ok(v, "") else Bad(false, SkipSpace(rest))
  }

  // ----- tails that more text may still complete

  /** `_NUMBER_TAIL`: what may follow a number that stopped early because the text ended. */
  predicate NumberTail(s: string) {
    s == "" || s == "." || ExponentTail(s)
  }

  predicate ExponentTail(s: string) {
    && 1 <= |s| <= 2
    && IsExponentMark(s[0])
    && (|s| == 2 ==> s[1] == '+' || s[1] == '-')
  }

  predicate UnicodeTail(s: string) {
    1 <= |s| <= 5 && s[0] == 'u' && forall i :: 1 <= i < |s| ==> IsHex(s[i])
  }

  /** `_INCOMPLETE_TAIL`: the text at an error's position when it may still become valid. A cut
      literal is a proper prefix of one, and the empty text is a proper prefix of all. */
  predicate IncompleteTail(s: string) {
    || s == "."
    || ExponentTail(s)
    || UnicodeTail(s)
    || s < "true" || s < "false" || s < "null"
    || s < "NaN" || s < "Infinity" || s < "-Infinity"
  }

  /** `_may_be_incomplete`. */
  predicate MayBeIncomplete<T>(r: Decoded<T>)
    requires r.Bad?
  {
    r.unterminated || IncompleteTail(r.tail)
  }
}
