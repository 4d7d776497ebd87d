/**
 Reading printed column types: the element of a list, the fields of a struct, and whether a value of the
 type could hold text; against the tree that was printed.

 The scanners look at brackets, commas, quotes and colons only. None stands for the exception of a type
 named as a list but without its bracket.
 */
module DtypeReader {
  import opened Basics
  import opened PythonText

  const TEXT: seq<string> := ["String", "Categorical", "Enum", "Utf8"]
  const NUMERIC: seq<string> :=
    ["Int8", "Int16", "Int32", "Int64", "Int128", "UInt8", "UInt16", "UInt32", "UInt64",
     "Float32", "Float64", "Decimal"]
  const OTHER: seq<string> := ["Date", "Datetime", "Time", "Duration", "Boolean", "Null"]

  // ----- small string operations

  /** The text before the first `c`, all of it without one. */
  function Before(s: string, c: char): string {
    if s == "" || s[0] == c then "" else [s[0]] + Before(s[1..], c)
  }

  /** The text after the first `c`. */
  function Following(s: string, c: char): (r: string)
    requires c in s
    ensures |r| < |s|
  {
    if s[0] == c then s[1..] else Following(s[1..], c)
  }

  /** `s[from:-tail]`. */
  function Slice(s: string, from: nat, tail: nat): (r: string)
    ensures |r| <= |s| && (s != "" && from + tail > 0 ==> |r| < |s|)
  {
    if from + tail >= |s| then "" else s[from..|s| - tail]
  }

  // ----- the scanners

  predicate Opens(c: char) {
    c == '(' || c == '[' || c == '{'
  }

  predicate Closes(c: char) {
    c == ')' || c == ']' || c == '}'
  }

  predicate IsQuote(c: char) {
    c == '\'' || c == '"'
  }

  function Nested(depth: int, c: char): int {
    if Opens(c) then depth + 1 else if Closes(c) then depth - 1 else depth
  }

  function Base(dtype: string): string {
    Before(dtype, '(')
  }

  /** The text before the first comma outside brackets; quotes mean nothing to it. */
  function Cut(body: string, depth: int): (r: string)
    ensures |r| <= |body|
  {
    if body == "" || (body[0] == ',' && depth == 0) then ""
    else [body[0]] + Cut(body[1..], Nested(depth, body[0]))
  }

  /** `_inner`. */
  function Inner(dtype: string): (r: Option<string>)
    ensures r == None <==> '(' !in dtype
    ensures r.Some? ==> |r.value| < |dtype|
  {
    if '(' !in dtype then None
    else
      var body := Slice(dtype, |Base(dtype)| + 1, 1);
      StripShortens(Cut(body, 0));
      Some(Strip(Cut(body, 0)))
  }

  /** The pieces between the commas outside brackets and quotes; `piece` is what is read of the current one. */
  function Pieces(body: string, depth: int, quoted: Option<char>, piece: string): seq<string> {
    if body == "" then [piece]
    else
      var c, rest := body[0], body[1..];
      if quoted.Some? then Pieces(rest, depth, if c == quoted.value then None else quoted, piece + [c])
      else if IsQuote(c) then Pieces(rest, depth, Some(c), piece + [c])
      else if c == ',' && depth == 0 then [piece] + Pieces(rest, depth, None, "")
      else Pieces(rest, Nested(depth, c), None, piece + [c])
  }

  /** What follows the name in each piece that has one. */
  function AfterNames(pieces: seq<string>): seq<string> {
    if pieces == [] then []
    else (if ':' in pieces[0] then [Strip(Following(pieces[0], ':'))] else []) + AfterNames(pieces[1..])
  }

  /** `_struct_fields`. */
  function StructFields(dtype: string): seq<string> {
    var body := Slice(dtype, 8, 2);
    if Strip(body) == "" then [] else AfterNames(Pieces(body, 0, None, ""))
  }

  lemma {:induction false} PiecesShorten(body: string, depth: int, quoted: Option<char>, piece: string)
    ensures forall i :: 0 <= i < |Pieces(body, depth, quoted, piece)| ==>
              |Pieces(body, depth, quoted, piece)[i]| <= |piece| + |body|
  {
    if body != "" {
      var c, rest := body[0], body[1..];
      PiecesShorten(rest, depth, if quoted.Some? && c != quoted.value then quoted else None, piece + [c]);
      PiecesShorten(rest, depth, Some(c), piece + [c]);
      PiecesShorten(rest, depth, None, "");
      PiecesShorten(rest, Nested(depth, c), None, piece + [c]);
    }
  }

  lemma {:induction false} AfterNamesShorten(pieces: seq<string>, bound: nat)
    requires forall i :: 0 <= i < |pieces| ==> |pieces[i]| <= bound
    ensures forall i :: 0 <= i < |AfterNames(pieces)| ==> |AfterNames(pieces)[i]| <= bound
  {
    if pieces != [] {
      AfterNamesShorten(pieces[1..], bound);
      if ':' in pieces[0] {
        StripShortens(Following(pieces[0], ':'));
      }
    }
  }

  lemma FieldsShorten(dtype: string)
    requires dtype != ""
    ensures forall i :: 0 <= i < |StructFields(dtype)| ==> |StructFields(dtype)[i]| < |dtype|
  {
    var body := Slice(dtype, 8, 2);
    PiecesShorten(body, 0, None, "");
    AfterNamesShorten(Pieces(body, 0, None, ""), |body|);
  }

  /** `_can_hold_text`: a struct is asked field by field until one says yes. */
  function CanHoldText(dtype: string): Option<bool>
    decreases |dtype|, 0
  {
    var base := Base(dtype);
    if base in TEXT then Some(true)
    else if base == "List" || base == "Array" then
      var inner := Inner(dtype);
      if inner == None then None else CanHoldText(inner.value)
    else if base == "Struct" then
      FieldsShorten(dtype);
      AnyCanHoldText(StructFields(dtype), |dtype|)
    else Some(base !in NUMERIC && base !in OTHER)
  }

  function AnyCanHoldText(fields: seq<string>, bound: nat): Option<bool>
    requires forall i :: 0 <= i < |fields| ==> |fields[i]| < bound
    decreases bound, 0, |fields|
  {
    if fields == [] then Some(false)
    else
      match CanHoldText(fields[0])
      case None => None
      case Some(true) => Some(true)
      case Some(false) => AnyCanHoldText(fields[1..], bound)
  }

  // ----- the loops

  method InnerOf(dtype: string) returns (r: Option<string>)
    ensures r == Inner(dtype)
  {
    if '(' !in dtype {
      return None;
    }
    var body := Slice(dtype, |Base(dtype)| + 1, 1);
    var depth := 0;
    for index := 0 to |body|
      invariant Cut(body, 0) == body[..index] + Cut(body[index..], depth)
    {
      var c := body[index];
      assert body[index..][0] == c && body[index..][1..] == body[index + 1..];
      if Opens(c) {
        depth := depth + 1;
      } else if Closes(c) {
        depth := depth - 1;
      } else if c == ',' && depth == 0 {
        assert Cut(body, 0) == body[..index];
        return Some(Strip(body[..index]));
      }
      Shift(body, index, Cut(body[index + 1..], depth));
    }
    assert body[..|body|] + "" == body && Cut(body[|body|..], depth) == "";
    assert Cut(body, 0) == body;
    return Some(Strip(body));
  }

  lemma Shift(body: string, index: nat, tail: string)
    requires index < |body|
    ensures body[..index] + ([body[index]] + tail) == body[..index + 1] + tail
  {
  }

  lemma OneMoreField(fields: seq<string>, field: string, tail: seq<string>)
    ensures fields + ([field] + tail) == (fields + [field]) + tail
  {
  }

  lemma {:induction false} SpaceIsOnePiece(body: string, piece: string)
    requires AllWhite(body)
    ensures Pieces(body, 0, None, piece) == [piece + body]
  {
    if body != "" {
      assert IsWhite(body[0]);
      assert AllWhite(body[1..]);
      SpaceIsOnePiece(body[1..], piece + [body[0]]);
      assert piece + [body[0]] + body[1..] == piece + body;
    } else {
      assert piece + body == piece;
    }
  }

  lemma NothingIsOnePiece(body: string)
    requires Strip(body) == ""
    ensures Pieces(body, 0, None, "") == [body]
  {
    StripRightLeavesNothing(StripLeft(body));
    StripLeftLeavesNothing(body);
    SpaceIsOnePiece(body, "");
    assert "" + body == body;
  }

  method StructFieldsOf(dtype: string) returns (r: seq<string>)
    ensures r == StructFields(dtype)
  {
    var body := Slice(dtype, 8, 2);
    var fields: seq<string> := [];
    var depth, quoted: Option<char>, start := 0, None, 0;
    for index := 0 to |body|
      invariant start <= index
      invariant fields + Pieces(body[index..], depth, quoted, body[start..index]) == Pieces(body, 0, None, "")
    {
      var c := body[index];
      assert body[index..][0] == c && body[index..][1..] == body[index + 1..];
      assert body[start..index] + [c] == body[start..index + 1];
      if quoted.Some? {
        if c == quoted.value {
          quoted := None;
        }
      } else if IsQuote(c) {
        quoted := Some(c);
      } else if Opens(c) {
        depth := depth + 1;
      } else if Closes(c) {
        depth := depth - 1;
      } else if c == ',' && depth == 0 {
        OneMoreField(fields, body[start..index], Pieces(body[index + 1..], 0, None, ""));
        fields := fields + [body[start..index]];
        start := index + 1;
        assert body[start..index + 1] == "";
      }
    }
    if Strip(body) != "" {
      fields := fields + [body[start..]];
      assert body[start..] == body[start..|body|];
      assert Pieces(body[|body|..], depth, quoted, body[start..]) == [body[start..]];
    } else {
      NothingIsOnePiece(body);
    }
    r := AfterNames(fields);
  }

  // ----- the printed tree

  /** A column type. Names and arguments are the text printed for them; a field name is printed between
      two quotes of one kind. */
  datatype Dtype =
    | Leaf(name: string, arguments: Option<string>)
    | List(element: Dtype)
    | Array(element: Dtype, shape: string)
    | Struct(fields: seq<Field>)

  datatype Field = Field(quote: char, name: string, dtype: Dtype)

  function Show(t: Dtype): string {
    match t
    case Leaf(name, arguments) => if arguments.Some? then name + "(" + arguments.value + ")" else name
    case List(element) => "List(" + Show(element) + ")"
    case Array(element, shape) => "Array(" + Show(element) + ", " + shape + ")"
    case Struct(fields) => "Struct({" + ShowFields(fields) + "})"
  }

  function ShowField(f: Field): string {
    [f.quote] + f.name + [f.quote] + ": " + Show(f.dtype)
  }

  function ShowFields(fields: seq<Field>): string {
    if fields == [] then ""
    else if |fields| == 1 then ShowField(fields[0])
    else ShowField(fields[0]) + ", " + ShowFields(fields[1..])
  }

  /** What the type means: some value of it is, or contains, text; an unknown type might. */
  predicate HoldsText(t: Dtype) {
    match t
    case Leaf(name, _) => name in TEXT || (name !in NUMERIC && name !in OTHER)
    case List(element) => HoldsText(element)
    case Array(element, _) => HoldsText(element)
    case Struct(fields) => exists i :: 0 <= i < |fields| && HoldsText(fields[i].dtype)
  }

  predicate IsWord(s: string) {
    s != "" && forall i :: 0 <= i < |s| ==> 'a' <= s[i] <= 'z' || 'A' <= s[i] <= 'Z' || '0' <= s[i] <= '9'
  }

  /** Leaves have names of their own, names are quoted. */
  ghost predicate Printable(t: Dtype) {
    match t
    case Leaf(name, _) => IsWord(name) && name != "List" && name != "Array" && name != "Struct"
    case List(element) => Printable(element)
    case Array(element, _) => Printable(element)
    case Struct(fields) => forall i :: 0 <= i < |fields| ==> IsQuote(fields[i].quote) && Printable(fields[i].dtype)
  }

  lemma ShowIsTidy(t: Dtype)
    requires Printable(t)
    ensures Tidy(Show(t)) && Strip(Show(t)) == Show(t)
  {
  }

  function Head(t: Dtype): string {
    match t
    case Leaf(name, _) => name
    case List(_) => "List"
    case Array(_, _) => "Array"
    case Struct(_) => "Struct"
  }

  lemma {:induction false} BeforeBracket(word: string, rest: string)
    requires '(' !in word && (rest == "" || rest[0] == '(')
    ensures Before(word + rest, '(') == word
  {
    if word != "" {
      assert (word + rest)[1..] == word[1..] + rest;
      BeforeBracket(word[1..], rest);
    } else {
      assert word + rest == rest;
    }
  }

  lemma BaseOfShow(t: Dtype)
    requires Printable(t)
    ensures Base(Show(t)) == Head(t)
  {
    HeadIsAWord(t);
    ShowBeginsWithHead(t);
    BeforeBracket(Head(t), AfterHead(t));
  }

  lemma HeadIsAWord(t: Dtype)
    requires Printable(t)
    ensures IsWord(Head(t))
  {
  }

  lemma HeadTellsText(t: Dtype)
    ensures Head(t) in TEXT <==> t.Leaf? && t.name in TEXT
  {
  }

  function AfterHead(t: Dtype): string {
    match t
    case Leaf(_, arguments) => if arguments.Some? then "(" + arguments.value + ")" else ""
    case List(element) => "(" + Show(element) + ")"
    case Array(element, shape) => "(" + Show(element) + ", " + shape + ")"
    case Struct(fields) => "({" + ShowFields(fields) + "})"
  }

  lemma ShowBeginsWithHead(t: Dtype)
    ensures Show(t) == Head(t) + AfterHead(t)
    ensures AfterHead(t) == "" || AfterHead(t)[0] == '('
  {
    match t
    case Leaf(name, arguments) =>
      if arguments.Some? {
        Apart(name, "(", arguments.value, ")");
      }
    case List(element) =>
      Apart("List", "(", Show(element), ")");
      assert "List" + "(" == "List(";
    case Array(element, shape) =>
      ArrayApart(Show(element), shape);
    case Struct(fields) =>
      Apart("Struct", "({", ShowFields(fields), "})");
      assert "Struct" + "({" == "Struct({";
  }

  lemma Apart(word: string, open: string, text: string, close: string)
    ensures word + open + text + close == word + (open + text + close)
  {
  }

  lemma ArrayApart(text: string, shape: string)
    ensures "Array(" + text + ", " + shape + ")" == "Array" + ("(" + text + ", " + shape + ")")
  {
    assert "Array(" == "Array" + "(";
  }

  // ----- the element of a list

  /** How many brackets are open after `s`, closing ones counting against. */
  function Depth(s: string): int {
    if s == "" then 0 else Depth(s[..|s| - 1]) + Nested(0, s[|s| - 1])
  }

  /** Some comma of `s` stands outside all brackets, quotes or not. */
  predicate HasOuterComma(s: string) {
    s != "" && (HasOuterComma(s[..|s| - 1]) || (s[|s| - 1] == ',' && Depth(s[..|s| - 1]) == 0))
  }

  lemma {:induction false} OuterCommaAt(s: string)
    ensures HasOuterComma(s) <==> exists i :: 0 <= i < |s| && s[i] == ',' && Depth(s[..i]) == 0
  {
    if s != "" {
      var init := s[..|s| - 1];
      OuterCommaAt(init);
      assert forall i :: 0 <= i < |init| ==> init[i] == s[i] && init[..i] == s[..i];
    }
  }

  /** Reading on after `a`, which is not cut. */
  lemma {:induction false} CutAfter(a: string, b: string)
    requires !HasOuterComma(a)
    ensures Cut(a + b, 0) == a + Cut(b, Depth(a))
  {
    if a == "" {
      assert a + b == b;
    } else {
      var init, c := a[..|a| - 1], a[|a| - 1];
      CutAfter(init, [c] + b);
      CutStep(c, b, Depth(init));
      LastApart(a, b);
      LastApart(a, Cut(b, Depth(a)));
    }
  }

  lemma CutStep(c: char, b: string, depth: int)
    requires !(c == ',' && depth == 0)
    ensures Cut([c] + b, depth) == [c] + Cut(b, Nested(depth, c))
    ensures Nested(depth, c) == depth + Nested(0, c)
  {
    assert ([c] + b)[1..] == b;
  }

  lemma LastApart(a: string, tail: string)
    requires a != ""
    ensures a[..|a| - 1] + ([a[|a| - 1]] + tail) == a + tail
  {
  }

  lemma CutAtComma(a: string, i: nat)
    requires i < |a| && a[i] == ',' && Depth(a[..i]) == 0 && !HasOuterComma(a[..i])
    ensures Cut(a, 0) == a[..i]
  {
    CutAfter(a[..i], a[i..]);
    assert a[..i] + a[i..] == a;
  }

  lemma {:induction false} FirstOuterComma(a: string) returns (i: nat)
    requires HasOuterComma(a)
    ensures i < |a| && a[i] == ',' && Depth(a[..i]) == 0 && !HasOuterComma(a[..i])
  {
    var init := a[..|a| - 1];
    if HasOuterComma(init) {
      i := FirstOuterComma(init);
      assert init[..i] == a[..i];
    } else {
      i := |init|;
    }
  }

  lemma InnerOfShown(t: Dtype, body: string)
    requires Printable(t) && Show(t) == Head(t) + "(" + body + ")"
    ensures Inner(Show(t)) == Some(Strip(Cut(body, 0)))
  {
    BaseOfShow(t);
    var n := |Head(t)|;
    assert Show(t)[n] == '(';
    assert Show(t)[n + 1..|Show(t)| - 1] == body;
  }

  /** The element of a list is read back exactly when its print has no comma outside brackets. */
  lemma InnerOfListExactlyWhen(element: Dtype)
    requires Printable(element)
    ensures Inner(Show(List(element))) == Some(Show(element)) <==> !HasOuterComma(Show(element))
  {
    var body := Show(element);
    InnerOfShown(List(element), body);
    ShowIsTidy(element);
    if HasOuterComma(body) {
      var i := FirstOuterComma(body);
      CutAtComma(body, i);
      StripShortens(body[..i]);
    } else {
      CutAfter(body, "");
      assert body + "" == body;
    }
  }

  /** The element of an array is read back exactly when its print has no comma outside brackets and as
      many opening brackets as closing ones. */
  lemma InnerOfArrayExactlyWhen(element: Dtype, shape: string)
    requires Printable(element)
    ensures Inner(Show(Array(element, shape))) == Some(Show(element)) <==>
            !HasOuterComma(Show(element)) && Depth(Show(element)) == 0
  {
    ShowArray(element, shape);
    InnerOfShown(Array(element, shape), Show(element) + ("," + (" " + shape)));
    ShowIsTidy(element);
    CutBeforeTail(Show(element), " " + shape);
  }

  lemma ShowArray(element: Dtype, shape: string)
    ensures Show(Array(element, shape)) == "Array" + "(" + (Show(element) + ("," + (" " + shape))) + ")"
  {
    assert ", " + shape == "," + (" " + shape);
  }

  lemma CutBeforeTail(shown: string, tail: string)
    requires Tidy(shown) && Strip(shown) == shown
    ensures Strip(Cut(shown + ("," + tail), 0)) == shown <==> !HasOuterComma(shown) && Depth(shown) == 0
  {
    var body := shown + ("," + tail);
    if HasOuterComma(shown) {
      var i := FirstOuterComma(shown);
      assert body[..i] == shown[..i];
      CutAtComma(body, i);
      StripShortens(body[..i]);
    } else {
      CutAfter(shown, "," + tail);
      if Depth(shown) == 0 {
        assert shown + "" == shown;
      } else {
        CommaRead(tail, Depth(shown));
        StripRightKeeps(shown + ("," + Cut(tail, Depth(shown))), |shown|);
      }
    }
  }

  lemma CommaRead(rest: string, depth: int)
    requires depth != 0
    ensures Cut("," + rest, depth) == "," + Cut(rest, depth)
  {
    assert ("," + rest)[1..] == rest;
  }

  // ----- the fields of a struct

  datatype Scan = Scan(depth: nat, quoted: Option<char>)

  /** Where a scan ends that heeds quotes if `aware`; none once it meets a comma outside brackets or a
      closing bracket too many. */
  function Walk(text: string, at: Scan, aware: bool): Option<Scan> {
    if text == "" then Some(at)
    else
      var c, rest := text[0], text[1..];
      if at.quoted.Some? then Walk(rest, Scan(at.depth, if c == at.quoted.value then None else at.quoted), aware)
      else if aware && IsQuote(c) then Walk(rest, Scan(at.depth, Some(c)), aware)
      else if at.depth == 0 && (c == ',' || Closes(c)) then None
      else Walk(rest, Scan(Nested(at.depth, c), None), aware)
  }

  lemma {:induction false} WalkOn(a: string, b: string, at: Scan, aware: bool)
    ensures Walk(a, at, aware).Some? ==> Walk(a + b, at, aware) == Walk(b, Walk(a, at, aware).value, aware)
  {
    if a == "" {
      assert a + b == b;
    } else {
      var c, rest := a[0], a[1..];
      assert (a + b)[1..] == rest + b;
      if at.quoted.Some? {
        WalkOn(rest, b, Scan(at.depth, if c == at.quoted.value then None else at.quoted), aware);
      } else if aware && IsQuote(c) {
        WalkOn(rest, b, Scan(at.depth, Some(c)), aware);
      } else if !(at.depth == 0 && (c == ',' || Closes(c))) {
        WalkOn(rest, b, Scan(Nested(at.depth, c), None), aware);
      }
    }
  }

  /** Deeper in, the same text is walked alike. */
  lemma {:induction false} WalkDeeper(text: string, at: Scan, more: nat, aware: bool)
    ensures Walk(text, at, aware).Some? ==>
              var end := Walk(text, at, aware).value;
              Walk(text, Scan(at.depth + more, at.quoted), aware) == Some(Scan(end.depth + more, end.quoted))
  {
    if text != "" {
      var c, rest := text[0], text[1..];
      if at.quoted.Some? {
        WalkDeeper(rest, Scan(at.depth, if c == at.quoted.value then None else at.quoted), more, aware);
      } else if aware && IsQuote(c) {
        WalkDeeper(rest, Scan(at.depth, Some(c)), more, aware);
      } else if !(at.depth == 0 && (c == ',' || Closes(c))) {
        WalkDeeper(rest, Scan(Nested(at.depth, c), None), more, aware);
      }
    }
  }

  /** The text brings a scan at `depth` back to where it was. */
  ghost predicate Level(text: string, depth: nat, aware: bool) {
    Walk(text, Scan(depth, None), aware) == Some(Scan(depth, None))
  }

  lemma LevelDeeper(text: string, depth: nat, more: nat, aware: bool)
    requires Level(text, depth, aware)
    ensures Level(text, depth + more, aware)
  {
    WalkDeeper(text, Scan(depth, None), more, aware);
  }

  lemma LevelOn(a: string, b: string, depth: nat, aware: bool)
    requires Level(a, depth, aware) && Level(b, depth, aware)
    ensures Level(a + b, depth, aware)
  {
    WalkOn(a, b, Scan(depth, None), aware);
  }

  lemma LevelInBrackets(open: char, text: string, close: char, depth: nat, aware: bool)
    requires Opens(open) && Closes(close) && Level(text, depth + 1, aware)
    ensures Level([open] + text + [close], depth, aware)
  {
    assert ([open] + text + [close])[1..] == text + [close];
    WalkOn(text, [close], Scan(depth + 1, None), aware);
    assert [close][1..] == "";
  }

  lemma {:induction false} PlainIsLevel(text: string, depth: nat, aware: bool)
    requires forall i :: 0 <= i < |text| ==> !Opens(text[i]) && !Closes(text[i]) && (depth == 0 ==> text[i] != ',')
    requires aware ==> forall i :: 0 <= i < |text| ==> !IsQuote(text[i])
    ensures Level(text, depth, aware)
  {
    if text != "" {
      PlainIsLevel(text[1..], depth, aware);
    }
  }

  lemma {:induction false} QuotedIsSkipped(text: string, quote: char, depth: nat)
    requires quote !in text
    ensures Walk(text + [quote], Scan(depth, Some(quote)), true) == Some(Scan(depth, None))
  {
    if text == "" {
      assert text + [quote] == [quote] && [quote][1..] == "";
    } else {
      assert (text + [quote])[1..] == text[1..] + [quote];
      QuotedIsSkipped(text[1..], quote, depth);
    }
  }

  /** Nothing printed for a name or an argument leads a scan astray: for one that heeds quotes, a name has
      not its own quote; for one that does not, a name has its brackets in pairs; arguments have brackets
      in pairs and, where quotes are heeded, close them. */
  ghost predicate Clean(t: Dtype, aware: bool) {
    match t
    case Leaf(_, arguments) => arguments.Some? ==> Level(arguments.value, 1, aware)
    case List(element) => Clean(element, aware)
    case Array(element, shape) => Clean(element, aware) && Level(shape, 1, aware)
    case Struct(fields) =>
      forall i :: 0 <= i < |fields| ==> CleanName(fields[i], aware) && Clean(fields[i].dtype, aware)
  }

  ghost predicate CleanName(f: Field, aware: bool) {
    if aware then f.quote !in f.name else Level(f.name, 2, false)
  }

  lemma NameIsLevel(f: Field, aware: bool)
    requires IsQuote(f.quote) && CleanName(f, aware)
    ensures Level([f.quote] + f.name + [f.quote], 2, aware)
    ensures aware ==> Level([f.quote] + f.name + [f.quote], 0, aware)
  {
    var text := [f.quote] + f.name + [f.quote];
    assert text[1..] == f.name + [f.quote];
    if aware {
      QuotedIsSkipped(f.name, f.quote, 2);
      QuotedIsSkipped(f.name, f.quote, 0);
    } else {
      var quote := [f.quote];
      assert !Opens(f.quote) && !Closes(f.quote) && |quote| == 1 && quote[0] == f.quote;
      PlainIsLevel(quote, 2, false);
      LevelOn(f.name, quote, 2, false);
      LevelOn(quote, f.name + quote, 2, false);
      assert text == quote + (f.name + quote);
    }
  }

  ghost predicate CleanField(f: Field, aware: bool) {
    IsQuote(f.quote) && CleanName(f, aware) && Level(Show(f.dtype), 0, aware)
  }

  lemma FieldIsLevel(f: Field, depth: nat, aware: bool)
    requires CleanField(f, aware) && (depth == 2 || (depth == 0 && aware))
    ensures Level(ShowField(f), depth, aware)
  {
    NameIsLevel(f, aware);
    PlainIsLevel(": ", depth, aware);
    LevelDeeper(Show(f.dtype), 0, depth, aware);
    LevelOn(": ", Show(f.dtype), depth, aware);
    LevelOn([f.quote] + f.name + [f.quote], ": " + Show(f.dtype), depth, aware);
    assert ShowField(f) == ([f.quote] + f.name + [f.quote]) + (": " + Show(f.dtype));
  }

  lemma {:induction false} FieldsAreLevel(fields: seq<Field>, aware: bool)
    requires forall i :: 0 <= i < |fields| ==> CleanField(fields[i], aware)
    ensures Level(ShowFields(fields), 2, aware)
  {
    if fields != [] {
      var first, rest := ShowField(fields[0]), ShowFields(fields[1..]);
      FieldIsLevel(fields[0], 2, aware);
      if |fields| > 1 {
        FieldsAreLevel(fields[1..], aware);
        CommaBetween(first, rest, aware);
        assert ShowFields(fields) == first + (", " + rest);
      }
    }
  }

  lemma CommaBetween(first: string, rest: string, aware: bool)
    requires Level(first, 2, aware) && Level(rest, 2, aware)
    ensures Level(first + (", " + rest), 2, aware)
  {
    PlainIsLevel(", ", 2, aware);
    LevelOn(", ", rest, 2, aware);
    LevelOn(first, ", " + rest, 2, aware);
  }

  /** What is printed for a type that is clean for a scan brings it back to where it was. */
  lemma {:induction false} ShowIsLevel(t: Dtype, aware: bool)
    requires Printable(t) && Clean(t, aware)
    ensures Level(Show(t), 0, aware)
  {
    PlainIsLevel(Head(t), 0, aware);
    match t
    case Leaf(name, arguments) =>
      if arguments.Some? {
        WordInBrackets(name, arguments.value, aware);
      }
    case List(element) =>
      ShowIsLevel(element, aware);
      LevelDeeper(Show(element), 0, 1, aware);
      WordInBrackets("List", Show(element), aware);
      assert Show(t) == "List" + "(" + Show(element) + ")";
    case Array(element, shape) =>
      ShowIsLevel(element, aware);
      ArrayIsLevel(element, shape, aware);
    case Struct(fields) =>
      forall i | 0 <= i < |fields| ensures CleanField(fields[i], aware) {
        ShowIsLevel(fields[i].dtype, aware);
      }
      StructIsLevel(fields, aware);
  }

  lemma ArrayIsLevel(element: Dtype, shape: string, aware: bool)
    requires Level(Show(element), 0, aware) && Level(shape, 1, aware)
    ensures Level(Show(Array(element, shape)), 0, aware)
  {
    var shown := Show(element);
    LevelDeeper(shown, 0, 1, aware);
    PlainIsLevel(", ", 1, aware);
    LevelOn(shown, ", ", 1, aware);
    LevelOn(shown + ", ", shape, 1, aware);
    PlainIsLevel("Array", 0, aware);
    WordInBrackets("Array", shown + ", " + shape, aware);
    assert Show(Array(element, shape)) == "Array" + "(" + (shown + ", " + shape) + ")";
  }

  lemma StructIsLevel(fields: seq<Field>, aware: bool)
    requires forall i :: 0 <= i < |fields| ==> CleanField(fields[i], aware)
    ensures Level(Show(Struct(fields)), 0, aware)
  {
    FieldsAreLevel(fields, aware);
    var shown := ShowFields(fields);
    LevelInBrackets('{', shown, '}', 1, aware);
    PlainIsLevel("Struct", 0, aware);
    WordInBrackets("Struct", "{" + shown + "}", aware);
    assert Show(Struct(fields)) == "Struct" + "(" + ("{" + shown + "}") + ")";
  }

  lemma WordInBrackets(word: string, text: string, aware: bool)
    requires Level(word, 0, aware) && Level(text, 1, aware)
    ensures Level(word + "(" + text + ")", 0, aware)
  {
    LevelInBrackets('(', text, ')', 0, aware);
    LevelOn(word, "(" + text + ")", 0, aware);
    assert word + "(" + text + ")" == word + ("(" + text + ")");
  }

  // ----- what is level is not cut

  lemma {:induction false} WalkCountsDepth(text: string)
    requires Walk(text, Scan(0, None), false).Some?
    ensures Depth(text) >= 0 && !HasOuterComma(text)
    ensures Walk(text, Scan(0, None), false) == Some(Scan(Depth(text), None))
  {
    if text != "" {
      var n := |text| - 1;
      var init, last := text[..n], [text[n]];
      assert text == init + last;
      WalkPrefix(init, last, Scan(0, None), false);
      WalkCountsDepth(init);
      WalkOn(init, last, Scan(0, None), false);
      assert last[1..] == "";
    }
  }

  lemma {:induction false} WalkPrefix(a: string, b: string, at: Scan, aware: bool)
    requires Walk(a + b, at, aware).Some?
    ensures Walk(a, at, aware).Some?
  {
    if a != "" {
      var c, rest := a[0], a[1..];
      assert (a + b)[1..] == rest + b;
      if at.quoted.Some? {
        WalkPrefix(rest, b, Scan(at.depth, if c == at.quoted.value then None else at.quoted), aware);
      } else if aware && IsQuote(c) {
        WalkPrefix(rest, b, Scan(at.depth, Some(c)), aware);
      } else {
        WalkPrefix(rest, b, Scan(Nested(at.depth, c), None), aware);
      }
    }
  }

  lemma {:induction false} PiecesAfter(a: string, b: string, at: Scan, piece: string)
    requires Walk(a, at, true).Some?
    ensures var end := Walk(a, at, true).value;
      Pieces(a + b, at.depth, at.quoted, piece) == Pieces(b, end.depth, end.quoted, piece + a)
  {
    if a == "" {
      assert a + b == b && piece + a == piece;
    } else {
      var c, rest := a[0], a[1..];
      assert (a + b)[1..] == rest + b && piece + a == piece + [c] + rest;
      if at.quoted.Some? {
        PiecesAfter(rest, b, Scan(at.depth, if c == at.quoted.value then None else at.quoted), piece + [c]);
      } else if IsQuote(c) {
        PiecesAfter(rest, b, Scan(at.depth, Some(c)), piece + [c]);
      } else {
        PiecesAfter(rest, b, Scan(Nested(at.depth, c), None), piece + [c]);
      }
    }
  }

  // ----- the fields are read back

  /** What the reader takes for the type of a field. */
  function Read(f: Field): string {
    assert ShowField(f)[|f.name| + 2] == ':';
    Strip(Following(ShowField(f), ':'))
  }

  function Reads(fields: seq<Field>): seq<string> {
    if fields == [] then [] else [Read(fields[0])] + Reads(fields[1..])
  }

  function Prints(fields: seq<Field>): seq<string> {
    if fields == [] then [] else [Show(fields[0].dtype)] + Prints(fields[1..])
  }

  lemma {:induction false} FollowingFirst(before: string, rest: string, c: char)
    requires c !in before
    ensures c in before + [c] + rest
    ensures Following(before + [c] + rest, c) == rest
  {
    var s := before + [c] + rest;
    assert s[|before|] == c;
    if before == "" {
      assert s[1..] == rest;
    } else {
      assert s[1..] == before[1..] + [c] + rest;
      FollowingFirst(before[1..], rest, c);
    }
  }

  lemma {:induction false} FollowingKeeps(before: string, rest: string, c: char)
    requires c in before
    ensures c in before + rest && Following(before + rest, c) == Following(before, c) + rest
  {
    var s := before + rest;
    var i :| 0 <= i < |before| && before[i] == c;
    assert s[i] == c;
    assert s[1..] == before[1..] + rest;
    if before[0] != c {
      FollowingKeeps(before[1..], rest, c);
    }
  }

  /** The type of a field is read back exactly when the field's name has no colon. */
  lemma ReadsTheTypeExactlyWhen(f: Field)
    requires IsQuote(f.quote) && Printable(f.dtype)
    ensures Read(f) == Show(f.dtype) <==> ':' !in f.name
  {
    var shown := Show(f.dtype);
    ShowIsTidy(f.dtype);
    if ':' in f.name {
      ReadIsLonger(f);
    } else {
      var before, rest := [f.quote] + f.name + [f.quote], " " + shown;
      assert ShowField(f) == before + [':'] + rest;
      FollowingFirst(before, rest, ':');
      assert rest[1..] == shown;
    }
  }

  lemma ReadIsLonger(f: Field)
    requires IsQuote(f.quote) && Tidy(Show(f.dtype)) && ':' in f.name
    ensures |Read(f)| > |Show(f.dtype)|
  {
    var shown := Show(f.dtype);
    var before, rest := [f.quote] + f.name, [f.quote] + ": " + shown;
    assert before[1..] == f.name;
    assert ShowField(f) == before + rest;
    assert rest[0] == f.quote && rest[|rest| - 1] == shown[|shown| - 1];
    AllOfTheRest(before, rest);
  }

  /** After a colon before it, all of a tidy text is read. */
  lemma AllOfTheRest(before: string, rest: string)
    requires ':' in before && Tidy(rest)
    ensures ':' in before + rest && |Strip(Following(before + rest, ':'))| >= |rest|
  {
    FollowingKeeps(before, rest, ':');
    StripKeepsRest(Following(before, ':'), rest);
  }

  lemma StripKeepsRest(lost: string, rest: string)
    requires Tidy(rest)
    ensures |Strip(lost + rest)| >= |rest|
  {
    var s := lost + rest;
    assert s[|lost|] == rest[0] && s[|s| - 1] == rest[|rest| - 1];
    StripKeepsFrom(s, |lost|);
  }

  lemma FieldPiece(f: Field, rest: string, lead: string)
    requires CleanField(f, true) && (lead == "" || lead == " ")
    ensures Pieces(ShowField(f) + (", " + rest), 0, None, lead) == [lead + ShowField(f)] + Pieces(rest, 0, None, " ")
    ensures Pieces(ShowField(f), 0, None, lead) == [lead + ShowField(f)]
  {
    FieldIsLevel(f, 0, true);
    PiecesAfter(ShowField(f), ", " + rest, Scan(0, None), lead);
    PiecesAfter(ShowField(f), "", Scan(0, None), lead);
    assert ShowField(f) + "" == ShowField(f);
    assert (", " + rest)[1..] == " " + rest && (" " + rest)[1..] == rest;
    assert "" + [' '] == " ";
  }

  lemma OnePieceRead(f: Field, lead: string, tail: seq<string>)
    requires lead == "" || lead == " "
    ensures AfterNames([lead + ShowField(f)] + tail) == [Read(f)] + AfterNames(tail)
  {
    var piece, pieces := lead + ShowField(f), [lead + ShowField(f)] + tail;
    assert ShowField(f)[|f.name| + 2] == ':' && ':' in ShowField(f);
    if lead == " " {
      assert piece[1..] == ShowField(f) && piece[0] == ' ';
      assert piece[|f.name| + 3] == ':';
    } else {
      assert piece == ShowField(f);
    }
    assert pieces[0] == piece && pieces[1..] == tail;
  }

  lemma {:induction false} FieldsAreCut(fields: seq<Field>, lead: string)
    requires fields != [] && (lead == "" || lead == " ")
    requires forall i :: 0 <= i < |fields| ==> CleanField(fields[i], true)
    ensures AfterNames(Pieces(ShowFields(fields), 0, None, lead)) == Reads(fields)
  {
    var f := fields[0];
    if |fields| == 1 {
      FieldPiece(f, "", lead);
      OnePieceRead(f, lead, []);
      assert [lead + ShowField(f)] + [] == [lead + ShowField(f)];
    } else {
      var rest := fields[1..];
      FieldPiece(f, ShowFields(rest), lead);
      OnePieceRead(f, lead, Pieces(ShowFields(rest), 0, None, " "));
      FieldsAreCut(rest, " ");
      assert ShowFields(fields) == ShowField(f) + (", " + ShowFields(rest));
    }
  }

  lemma {:induction false} ReadsArePrintsExactlyWhen(fields: seq<Field>)
    requires forall i :: 0 <= i < |fields| ==> IsQuote(fields[i].quote) && Printable(fields[i].dtype)
    ensures Reads(fields) == Prints(fields) <==> forall i :: 0 <= i < |fields| ==> ':' !in fields[i].name
  {
    if fields != [] {
      var f, rest := fields[0], fields[1..];
      ReadsTheTypeExactlyWhen(f);
      ReadsArePrintsExactlyWhen(rest);
      assert Reads(fields)[0] == Read(f) && Reads(fields)[1..] == Reads(rest);
      assert Prints(fields)[0] == Show(f.dtype) && Prints(fields)[1..] == Prints(rest);
      assert (forall i :: 0 <= i < |fields| ==> ':' !in fields[i].name) <==>
             ':' !in f.name && forall i :: 0 <= i < |rest| ==> ':' !in rest[i].name by {
        assert forall i :: 0 <= i < |rest| ==> rest[i] == fields[i + 1];
      }
    }
  }

  /** The types of a struct's fields are read back, all of them in order, exactly when no field of its own
      has a colon in its name. Brackets in names do no harm here. */
  lemma StructFieldsExactlyWhen(fields: seq<Field>)
    requires Printable(Struct(fields)) && Clean(Struct(fields), true)
    ensures StructFields(Show(Struct(fields))) == Prints(fields) <==>
            forall i :: 0 <= i < |fields| ==> ':' !in fields[i].name
  {
    ReadsArePrintsExactlyWhen(fields);
    FieldsAreRead(fields);
  }

  /** Colons or not, there is one type read for each field. */
  lemma FieldsAreRead(fields: seq<Field>)
    requires Printable(Struct(fields)) && Clean(Struct(fields), true)
    ensures StructFields(Show(Struct(fields))) == Reads(fields)
  {
    BodyOfStruct(fields);
    if fields != [] {
      forall i | 0 <= i < |fields| ensures CleanField(fields[i], true) {
        ShowIsLevel(fields[i].dtype, true);
      }
      FieldsAreCut(fields, "");
    }
  }

  lemma BodyOfStruct(fields: seq<Field>)
    requires forall i :: 0 <= i < |fields| ==> IsQuote(fields[i].quote)
    ensures Slice(Show(Struct(fields)), 8, 2) == ShowFields(fields)
    ensures Strip(ShowFields(fields)) == "" <==> fields == []
  {
    var body := ShowFields(fields);
    if fields != [] {
      StartsWithItsQuote(fields[0]);
      StripRightKeeps(body, 0);
    }
  }

  lemma StartsWithItsQuote(f: Field)
    ensures ShowField(f) != "" && ShowField(f)[0] == f.quote
  {
  }

  // ----- reading a whole type

  lemma {:induction false} AnyIsSome(fields: seq<Field>, bound: nat)
    requires forall i :: 0 <= i < |Prints(fields)| ==> |Prints(fields)[i]| < bound
    requires forall i :: 0 <= i < |fields| ==> CanHoldText(Show(fields[i].dtype)) == Some(HoldsText(fields[i].dtype))
    ensures AnyCanHoldText(Prints(fields), bound) == Some(exists i :: 0 <= i < |fields| && HoldsText(fields[i].dtype))
  {
    if fields != [] {
      var rest := fields[1..];
      assert Prints(fields)[1..] == Prints(rest) && Prints(fields)[0] == Show(fields[0].dtype);
      assert forall i :: 0 <= i < |rest| ==> rest[i] == fields[i + 1];
      AnyIsSome(rest, bound);
      if HoldsText(fields[0].dtype) {
        assert exists i :: 0 <= i < |fields| && HoldsText(fields[i].dtype);
      } else if i :| 0 <= i < |fields| && HoldsText(fields[i].dtype) {
        assert HoldsText(rest[i - 1].dtype);
      }
    }
  }

  /** Every field of the type and every element with components of its own, at any depth, is read back. */
  ghost predicate Readable(t: Dtype) {
    match t
    case Leaf(_, _) => true
    case List(element) => element.Leaf? || (!HasOuterComma(Show(element)) && Readable(element))
    case Array(element, _) =>
      element.Leaf? || (!HasOuterComma(Show(element)) && Depth(Show(element)) == 0 && Readable(element))
    case Struct(fields) =>
      forall i :: 0 <= i < |fields| ==>
        && ':' !in fields[i].name && CleanName(fields[i], true)
        && Clean(fields[i].dtype, true) && Readable(fields[i].dtype)
  }

  /** Reading the print of a type, however deeply nested, tells whether the type could hold text. */
  lemma {:induction false} ReadingTellsTheMeaning(t: Dtype)
    requires Printable(t) && Readable(t)
    ensures CanHoldText(Show(t)) == Some(HoldsText(t))
  {
    match t
    case Leaf(_, _) =>
      BaseOfShow(t);
    case List(element) =>
      if element.Leaf? {
        LeafIsAsked(t);
      } else {
        ReadingTellsTheMeaning(element);
        InnerOfListExactlyWhen(element);
        ElementIsAsked(t);
      }
    case Array(element, shape) =>
      if element.Leaf? {
        LeafIsAsked(t);
      } else {
        ReadingTellsTheMeaning(element);
        InnerOfArrayExactlyWhen(element, shape);
        ElementIsAsked(t);
      }
    case Struct(fields) =>
      forall i | 0 <= i < |fields| ensures CanHoldText(Show(fields[i].dtype)) == Some(HoldsText(fields[i].dtype)) {
        ReadingTellsTheMeaning(fields[i].dtype);
      }
      StructIsAsked(fields);
  }

  lemma ElementIsAsked(t: Dtype)
    requires Printable(t) && (t.List? || t.Array?)
    ensures Inner(Show(t)) == Some(Show(t.element)) ==> CanHoldText(Show(t)) == CanHoldText(Show(t.element))
  {
    BaseOfShow(t);
  }

  /** Of an element without components the name is enough, and that is kept. */
  lemma LeafIsAsked(t: Dtype)
    requires Printable(t) && (t.List? || t.Array?) && t.element.Leaf?
    ensures CanHoldText(Show(t)) == Some(HoldsText(t.element))
  {
    BaseOfShow(t);
    NameOfElementIsRead(t);
  }

  lemma StructIsAsked(fields: seq<Field>)
    requires Printable(Struct(fields)) && Readable(Struct(fields))
    requires forall i :: 0 <= i < |fields| ==> CanHoldText(Show(fields[i].dtype)) == Some(HoldsText(fields[i].dtype))
    ensures CanHoldText(Show(Struct(fields))) == Some(HoldsText(Struct(fields)))
  {
    var shown := Show(Struct(fields));
    BaseOfShow(Struct(fields));
    StructFieldsExactlyWhen(fields);
    FieldsShorten(shown);
    AnyIsSome(fields, |shown|);
  }

  lemma ElementIsRead(element: Dtype)
    requires Printable(element) && Clean(element, false)
    ensures !HasOuterComma(Show(element)) && Depth(Show(element)) == 0
  {
    ShowIsLevel(element, false);
    WalkCountsDepth(Show(element));
  }

  ghost predicate NoColons(t: Dtype) {
    match t
    case Leaf(_, _) => true
    case List(element) => NoColons(element)
    case Array(element, _) => NoColons(element)
    case Struct(fields) => forall i :: 0 <= i < |fields| ==> ':' !in fields[i].name && NoColons(fields[i].dtype)
  }

  /** What is clean for both scans and has no colon in a name is readable. */
  lemma {:induction false} CleanIsReadable(t: Dtype)
    requires Printable(t) && Clean(t, true) && Clean(t, false) && NoColons(t)
    ensures Readable(t)
  {
    match t
    case Leaf(_, _) =>
    case List(element) =>
      ElementIsRead(element);
      CleanIsReadable(element);
    case Array(element, _) =>
      ElementIsRead(element);
      CleanIsReadable(element);
    case Struct(fields) =>
      forall i | 0 <= i < |fields| ensures Readable(fields[i].dtype) {
        CleanIsReadable(fields[i].dtype);
      }
  }

  // ----- lists of text

  /** `_text_element`. */
  function TextElement(dtype: string): Option<bool> {
    if Base(dtype) == "List" || Base(dtype) == "Array" then
      var inner := Inner(dtype);
      if inner == None then None else Some(Base(inner.value) in TEXT)
    else Some(false)
  }

  predicate IsTextList(t: Dtype) {
    (t.List? || t.Array?) && t.element.Leaf? && t.element.name in TEXT
  }

  /** A list of scalar text is told from its print, whatever else is in it: a cut element keeps its name. */
  lemma TextElementIsRead(t: Dtype)
    requires Printable(t)
    ensures TextElement(Show(t)) == Some(IsTextList(t))
  {
    BaseOfShow(t);
    if t.List? || t.Array? {
      NameOfElementIsRead(t);
      HeadTellsText(t.element);
    }
  }

  /** However an element is cut, its name is left. */
  lemma NameOfElementIsRead(t: Dtype)
    requires Printable(t) && (t.List? || t.Array?)
    ensures Inner(Show(t)).Some? && Base(Inner(Show(t)).value) == Head(t.element)
  {
    match t
    case List(element) =>
      InnerOfShown(t, Show(element));
      NameIsKept(element, "");
      assert Show(element) + "" == Show(element);
    case Array(element, shape) =>
      ShowArray(element, shape);
      InnerOfShown(t, Show(element) + ("," + (" " + shape)));
      NameIsKept(element, "," + (" " + shape));
  }

  lemma NameIsKept(t: Dtype, tail: string)
    requires Printable(t) && (tail == "" || tail[0] == ',')
    ensures Base(Strip(Cut(Show(t) + tail, 0))) == Head(t)
  {
    HeadIsAWord(t);
    ShowBeginsWithHead(t);
    WordBeforeTailIsKept(Show(t), Head(t), AfterHead(t), tail);
  }

  lemma WordBeforeTailIsKept(shown: string, word: string, rest: string, tail: string)
    requires shown == word + rest && IsWord(word)
    requires (rest == "" || rest[0] == '(') && (tail == "" || tail[0] == ',')
    ensures Base(Strip(Cut(shown + tail, 0))) == word
  {
    assert shown + tail == word + (rest + tail);
    WordIsKept(word, rest + tail);
  }

  lemma WordIsKept(word: string, rest: string)
    requires IsWord(word) && (rest == "" || rest[0] == '(' || rest[0] == ',')
    ensures Base(Strip(Cut(word + rest, 0))) == word
  {
    PlainDepth(word);
    OuterCommaAt(word);
    CutAfter(word, rest);
    StrippedWord(word, Cut(rest, 0));
  }

  lemma StrippedWord(word: string, cut: string)
    requires IsWord(word) && (cut == "" || cut[0] == '(')
    ensures Base(Strip(word + cut)) == word
  {
    var s := word + cut;
    assert s[0] == word[0];
    var n := StripAfterWord(word, cut);
    BeforeBracket(word, cut[..n]);
  }

  lemma StripAfterWord(word: string, cut: string) returns (n: nat)
    requires IsWord(word) && (cut == "" || !IsWhite(cut[0]))
    ensures n <= |cut| && (cut != "" ==> n > 0) && StripRight(word + cut) == word + cut[..n]
  {
    var s := word + cut;
    assert s[|word| - 1] == word[|word| - 1];
    StripRightCuts(s);
    StripRightKeeps(s, |word| - 1);
    if cut != "" {
      StripRightKeeps(s, |word|);
    }
    n := |StripRight(s)| - |word|;
    assert s[..|word| + n] == word + cut[..n];
  }

  /** A name without quotes and brackets is clean for both scans. */
  lemma PlainNameIsClean(f: Field)
    requires IsQuote(f.quote)
    requires forall i :: 0 <= i < |f.name| ==> !IsQuote(f.name[i]) && !Opens(f.name[i]) && !Closes(f.name[i])
    ensures CleanName(f, true) && CleanName(f, false)
  {
    PlainIsLevel(f.name, 2, false);
  }

  // ----- a name with brackets

  lemma {:induction false} DepthOfConcatenation(a: string, b: string)
    ensures Depth(a + b) == Depth(a) + Depth(b)
  {
    if b == "" {
      assert a + b == a;
    } else {
      var n := |b| - 1;
      assert (a + b)[..|a| + n] == a + b[..n];
      DepthOfConcatenation(a, b[..n]);
    }
  }

  /** With closing brackets in a name, quoted or not, the element of a list is cut short: the scan for the
      element does not heed quotes. */
  lemma BracketsInANameCutTheElement(first: Dtype, second: Field)
    requires Printable(first) && Clean(first, false) && IsQuote(second.quote) && Printable(second.dtype)
    ensures var t := Struct([Field('\'', "))", first), second]); Inner(Show(List(t))) != Some(Show(t))
  {
    var t := Struct([Field('\'', "))", first), second]);
    var before := "Struct({'))': " + Show(first);
    ShowTwoFields(first, second);
    ElementIsRead(first);
    DepthOfConcatenation("Struct({'))': ", Show(first));
    OpenedAndClosed();
    OuterCommaAt(Show(t));
    assert Show(t)[|before|] == ',' && Show(t)[..|before|] == before;
    InnerOfListExactlyWhen(t);
  }

  lemma ShowTwoFields(first: Dtype, second: Field)
    ensures Show(Struct([Field('\'', "))", first), second]))
            == "Struct({'))': " + Show(first) + (", " + ShowField(second) + "})")
  {
    var f := Field('\'', "))", first);
    ShowTwo(f, second);
    ShowBracketName(first);
    assert "Struct({" + "'))': " == "Struct({'))': ";
  }

  lemma ShowTwo(f: Field, g: Field)
    ensures ShowFields([f, g]) == ShowField(f) + ", " + ShowField(g)
  {
    assert [f, g][1..] == [g] && ShowFields([g]) == ShowField(g);
  }

  lemma ShowBracketName(t: Dtype)
    ensures ShowField(Field('\'', "))", t)) == "'))': " + Show(t)
  {
    assert "'" + "))" + "'" + ": " == "'))': ";
  }

  lemma OpenedAndClosed()
    ensures Depth("Struct({'))': ") == 0
  {
    PlainDepth("Struct");
    PlainDepth("'");
    PlainDepth("': ");
    TwoBrackets();
    DepthOfConcatenation("Struct", "({");
    DepthOfConcatenation("Struct({", "'");
    DepthOfConcatenation("Struct({'", "))");
    DepthOfConcatenation("Struct({'))", "': ");
    assert "Struct" + "({" == "Struct({" && "Struct({" + "'" == "Struct({'";
    assert "Struct({'" + "))" == "Struct({'))" && "Struct({'))" + "': " == "Struct({'))': ";
  }

  lemma TwoBrackets()
    ensures Depth("({") == 2 && Depth("))") == -2
  {
    assert "({"[..1] == "(" && "("[..0] == "";
    assert "))"[..1] == ")" && ")"[..0] == "";
  }

  lemma {:induction false} PlainDepth(s: string)
    requires forall i :: 0 <= i < |s| ==> !Opens(s[i]) && !Closes(s[i])
    ensures Depth(s) == 0
  {
    if s != "" {
      PlainDepth(s[..|s| - 1]);
    }
  }
}
