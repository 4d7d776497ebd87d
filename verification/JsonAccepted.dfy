/**
 Every text the decoder accepts is a document as JSON is written, and it means what was read. With
 the reverse direction this tells exactly what `json.loads` accepts.
 */
module JsonAccepted {
  import opened JsonDecoder
  import opened JsonRoundTrip
  import T = JsonText

  // ----- strings

  lemma PieceFirst(p: T.Piece, more: seq<T.Piece>, t: string)
    requires T.GoodPiece(p) && T.GoodPieces(more)
    ensures T.GoodPieces([p] + more) && Rest([p] + more, t) == T.ShowPiece(p) + Rest(more, t)
    ensures !T.StartsWithPair([p] + more) ==> T.Points([p] + more) == [T.PointOf(p)] + T.Points(more)
  {
    assert ([p] + more)[1..] == more;
    RestUnfolds([p] + more, t);
  }

  lemma PairFirst(a: T.Piece, b: T.Piece, more: seq<T.Piece>, t: string)
    requires T.GoodPiece(a) && T.GoodPiece(b) && T.GoodPieces(more)
    requires a.Unit? && b.Unit? && T.IsHigh(T.UnitOf(a.hex)) && T.IsLow(T.UnitOf(b.hex))
    ensures T.GoodPieces([a, b] + more) && Rest([a, b] + more, t) == T.ShowPiece(a) + (T.ShowPiece(b) + Rest(more, t))
    ensures T.Points([a, b] + more) == [T.Together(T.UnitOf(a.hex), T.UnitOf(b.hex))] + T.Points(more)
  {
    PieceFirst(b, more, t);
    PieceFirst(a, [b] + more, t);
    var all := [a, b] + more;
    assert all == [a] + ([b] + more) && all[2..] == more;
  }

  lemma {:induction false} CharactersAccepted(open: string, s: string) returns (pieces: seq<T.Piece>)
    requires Characters(open, s).Ok?
    ensures T.GoodPieces(pieces) && s == Rest(pieces, Characters(open, s).rest)
    ensures T.Points(pieces) == Characters(open, s).value
    decreases |s|, 0
  {
    var t := Characters(open, s).rest;
    if s[0] == '"' {
      pieces := [];
      assert s == "" + ("\"" + s[1..]);
    } else if s[0] != '\\' {
      var more := CharactersAccepted(open, s[1..]);
      PieceFirst(T.Plain(s[0]), more, t);
      pieces := [T.Plain(s[0])] + more;
    } else if s[1] != 'u' {
      var more := CharactersAccepted(open, s[2..]);
      ShortAgrees(s[1]);
      PieceFirst(T.Short(s[1]), more, t);
      pieces := [T.Short(s[1])] + more;
      assert s == ("\\" + [s[1]]) + s[2..];
    } else {
      UnitAgrees(s[2..6]);
      assert s == ("\\u" + s[2..6]) + s[6..];
      pieces := UnitAccepted(open, s[2..6], s[6..]);
    }
  }

  lemma {:induction false} UnitAccepted(open: string, hex: string, s: string) returns (pieces: seq<T.Piece>)
    requires T.GoodHex(hex) && AfterEscape(open, T.UnitOf(hex), s).Ok?
    ensures T.GoodPieces(pieces)
    ensures ("\\u" + hex) + s == Rest(pieces, AfterEscape(open, T.UnitOf(hex), s).rest)
    ensures T.Points(pieces) == AfterEscape(open, T.UnitOf(hex), s).value
    decreases |s|, 1
  {
    var u, t := T.UnitOf(hex), AfterEscape(open, T.UnitOf(hex), s).rest;
    UnitAgrees(hex);
    if UnitNext(s) && T.IsHigh(u) && IsLowSurrogate(Hex4(s[2..6])) {
      UnitAgrees(s[2..6]);
      PairRead(open, u, s);
      var more := CharactersAccepted(open, s[6..]);
      pieces := PairWritten(hex, s[2..6], more, s, t);
    } else {
      LoneUnitRead(open, u, s);
      var more := CharactersAccepted(open, s);
      pieces := UnitWritten(hex, more, s, t);
    }
  }

  lemma PairWritten(hex: string, low: string, more: seq<T.Piece>, s: string, t: string) returns (pieces: seq<T.Piece>)
    requires T.GoodHex(hex) && T.GoodHex(low) && T.GoodPieces(more)
    requires T.IsHigh(T.UnitOf(hex)) && T.IsLow(T.UnitOf(low))
    requires UnitNext(s) && s[2..6] == low && s[6..] == Rest(more, t)
    ensures T.GoodPieces(pieces) && ("\\u" + hex) + s == Rest(pieces, t)
    ensures T.Points(pieces) == [T.Together(T.UnitOf(hex), T.UnitOf(low))] + T.Points(more)
  {
    PairFirst(T.Unit(hex), T.Unit(low), more, t);
    pieces := [T.Unit(hex), T.Unit(low)] + more;
    assert s == ("\\u" + low) + s[6..];
  }

  lemma UnitWritten(hex: string, more: seq<T.Piece>, s: string, t: string) returns (pieces: seq<T.Piece>)
    requires T.GoodHex(hex) && T.GoodPieces(more) && s == Rest(more, t)
    requires T.IsHigh(T.UnitOf(hex)) && UnitNext(s) ==> !IsHex4(s[2..6]) || !IsLowSurrogate(Hex4(s[2..6]))
    ensures T.GoodPieces(pieces) && ("\\u" + hex) + s == Rest(pieces, t)
    ensures T.Points(pieces) == [T.UnitOf(hex)] + T.Points(more)
  {
    NoLowFirst(more, t, s);
    PieceFirst(T.Unit(hex), more, t);
    pieces := [T.Unit(hex)] + more;
  }

  /** Where no low unit is next, the pieces do not start with one. */
  lemma NoLowFirst(pieces: seq<T.Piece>, t: string, s: string)
    requires T.GoodPieces(pieces) && s == Rest(pieces, t)
    ensures pieces != [] && pieces[0].Unit? && T.IsLow(T.UnitOf(pieces[0].hex)) ==>
              UnitNext(s) && IsHex4(s[2..6]) && IsLowSurrogate(Hex4(s[2..6]))
  {
    if pieces != [] && pieces[0].Unit? {
      UnitBeginsRest(pieces, t);
      UnitAgrees(pieces[0].hex);
    }
  }

  // ----- numbers

  predicate Digital(s: string) {
    forall i :: 0 <= i < |s| ==> '0' <= s[i] <= '9'
  }

  lemma {:induction false} DigitsAccepted(s: string) returns (digits: string)
    ensures Digital(digits) && s == digits + Digits(s) && (s != "" && IsDigit(s[0]) ==> digits != "")
  {
    digits := "";
    if s != "" && IsDigit(s[0]) {
      var more := DigitsAccepted(s[1..]);
      digits := [s[0]] + more;
    }
  }

  lemma WholeAccepted(u: string) returns (whole: string)
    requires u != "" && IsDigit(u[0])
    ensures T.AllDigits(whole) && (whole[0] == '0' ==> whole == "0") && u == whole + Whole(u)
  {
    if u[0] == '0' {
      whole := "0";
    } else {
      whole := DigitsAccepted(u);
    }
  }

  lemma FractionAccepted(s: string) returns (f: T.Fraction)
    ensures (f.Point? ==> T.AllDigits(f.digits)) && s == T.ShowFraction(f) + Fraction(s)
  {
    f := T.NoFraction;
    if |s| >= 2 && s[0] == '.' && IsDigit(s[1]) {
      var digits := DigitsAccepted(s[1..]);
      f := T.Point(digits);
    }
  }

  lemma SignAccepted(s: string) returns (sign: string)
    requires s != ""
    ensures (sign == "" || sign == "+" || sign == "-") && s == [s[0]] + (sign + ExponentDigits(s))
  {
    sign := if |s| >= 2 && (s[1] == '+' || s[1] == '-') then [s[1]] else "";
  }

  lemma MarkFirst(mark: string, sign: string, digits: string, t: string)
    ensures mark + (sign + (digits + t)) == (mark + sign + digits) + t
  {
  }

  lemma ExponentAccepted(s: string) returns (e: T.Exponent)
    ensures e.Power? ==> (e.mark == 'e' || e.mark == 'E') && (e.sign == "" || e.sign == "+" || e.sign == "-")
    ensures e.Power? ==> T.AllDigits(e.digits)
    ensures s == T.ShowExponent(e) + Exponent(s)
  {
    e := T.NoExponent;
    if s != "" && IsExponentMark(s[0]) {
      var d := ExponentDigits(s);
      if d != "" && IsDigit(d[0]) {
        var digits := DigitsAccepted(d);
        var sign := SignAccepted(s);
        e := T.Power(s[0], sign, digits);
        MarkFirst([s[0]], sign, digits, Digits(d));
      }
    }
  }

  lemma UnsignedAccepted(u: string, minus: bool) returns (n: T.Numeral)
    requires u != "" && IsDigit(u[0])
    ensures T.GoodNumeral(n) && n.minus == minus && u == T.ShowUnsigned(n) + AfterUnsigned(u)
  {
    var whole := WholeAccepted(u);
    var f := FractionAccepted(Whole(u));
    var e := ExponentAccepted(Fraction(Whole(u)));
    n := T.Numeral(minus, whole, f, e);
    Regrouped(whole, T.ShowFraction(f), T.ShowExponent(e), AfterUnsigned(u));
  }

  lemma Regrouped(a: string, b: string, c: string, d: string)
    ensures a + (b + (c + d)) == (a + (b + c)) + d
  {
  }

  lemma NumeralAccepted(s: string) returns (n: T.Numeral)
    requires s != "" && Numeral(s).Ok?
    ensures T.GoodNumeral(n) && s == T.ShowNumeral(n) + Numeral(s).rest
    ensures Numeral(s).value == Number(T.ShowNumeral(n))
  {
    var u := Unsigned(s);
    n := UnsignedAccepted(u, s[0] == '-');
    SignFirst(s, n, u, AfterUnsigned(u));
  }

  lemma SignFirst(s: string, n: T.Numeral, u: string, rest: string)
    requires s != "" && u == Unsigned(s) && n.minus == (s[0] == '-') && u == T.ShowUnsigned(n) + rest
    ensures s == T.ShowNumeral(n) + rest && s[..|s| - |rest|] == T.ShowNumeral(n)
  {
    var shown := T.ShowUnsigned(n);
    if n.minus {
      assert s == "-" + u && T.ShowNumeral(n) == "-" + shown;
      assert "-" + (shown + rest) == ("-" + shown) + rest;
    } else {
      assert "" + shown == shown;
    }
  }

  lemma LiteralAccepted(s: string) returns (d: T.Doc)
    requires s != "" && Literal(s).Ok?
    ensures T.Good(d) && s == T.Show(d) + Literal(s).rest && Literal(s).value == T.Meaning(d)
  {
    var (word, v) := Word(s[0]);
    if word != "" && word <= s {
      d := T.Word(word);
      assert s == word + s[|word|..];
    } else {
      var n := NumeralAccepted(s);
      d := T.Num(n);
    }
  }

  // ----- space

  lemma {:induction false} SpaceAccepted(s: string) returns (space: string)
    ensures T.Blank(space) && s == space + SkipSpace(s)
  {
    space := "";
    if s != "" && IsSpace(s[0]) {
      var more := SpaceAccepted(s[1..]);
      space := [s[0]] + more;
    }
  }

  // ----- items and members

  lemma AroundValue(before: string, shown: string, after: string, next: string)
    ensures before + (shown + (after + next)) == (before + shown + after) + next
  {
  }

  lemma BeforeComma(one: string, next: string, between: string, following: string, more: string, t: string)
    requires next != "" && next[0] == ',' && next[1..] == between + following && between + following == more + t
    ensures one + next == (one + "," + more) + t
  {
    assert next == "," + next[1..];
  }

  lemma FirstItem(item: T.Item, more: seq<T.Item>)
    requires T.GoodItem(item) && T.GoodItems(more)
    ensures T.GoodItems([item] + more) && T.Meanings([item] + more) == [T.Meaning(item.value)] + T.Meanings(more)
    ensures T.ShowItems([item] + more) ==
            if more == [] then T.ShowItem(item) else T.ShowItem(item) + "," + T.ShowItems(more)
  {
    assert ([item] + more)[1..] == more;
  }

  lemma ItemRead(s: string, done: seq<Json>)
    requires Items(s, done).Ok?
    ensures Value(s).Ok?
    ensures var v, next := Value(s).value, SkipSpace(Value(s).rest);
            && next != "" && (next[0] == ']' || next[0] == ',')
            && Items(s, done) == if next[0] == ']' then Ok(Array(done + [v]), next[1..])
                                 else Items(SkipSpace(next[1..]), done + [v])
  {
  }

  lemma LastItem(done: seq<Json>, v: Json)
    ensures done + [v] == done + ([v] + T.Meanings([]))
  {
  }

  lemma ItemsOneByOne(done: seq<Json>, v: Json, later: seq<Json>)
    ensures done + ([v] + later) == (done + [v]) + later
  {
  }

  lemma {:induction false} ItemsAccepted(before: string, s: string, done: seq<Json>) returns (items: seq<T.Item>)
    requires T.Blank(before) && Items(s, done).Ok?
    ensures items != [] && T.GoodItems(items)
    ensures before + s == T.ShowItems(items) + ("]" + Items(s, done).rest)
    ensures Items(s, done).value == Array(done + T.Meanings(items))
    decreases |s|, 4
  {
    var t := Items(s, done).rest;
    ItemRead(s, done);
    var d := ValueAccepted(s);
    var v, next := Value(s).value, SkipSpace(Value(s).rest);
    var after := SpaceAccepted(Value(s).rest);
    var item := T.Item(before, d, after);
    AroundValue(before, T.Show(d), after, next);
    if next[0] == ']' {
      items := [item];
      FirstItem(item, []);
      LastItem(done, v);
      assert next == "]" + t;
    } else {
      var between := SpaceAccepted(next[1..]);
      var following := SkipSpace(next[1..]);
      var more := ItemsAccepted(between, following, done + [v]);
      items := [item] + more;
      FirstItem(item, more);
      BeforeComma(T.ShowItem(item), next, between, following, T.ShowItems(more), "]" + t);
      ItemsOneByOne(done, v, T.Meanings(more));
    }
  }

  lemma FirstMember(m: T.Member, more: seq<T.Member>)
    requires T.GoodMember(m) && T.GoodMembers(more)
    ensures T.GoodMembers([m] + more)
    ensures T.Fields([m] + more) == map[T.Points(m.key) := T.Meaning(m.value)] + T.Fields(more)
    ensures T.ShowMembers([m] + more) ==
            if more == [] then T.ShowMember(m) else T.ShowMember(m) + "," + T.ShowMembers(more)
  {
    assert ([m] + more)[1..] == more;
  }

  lemma MembersRead(s: string, done: map<seq<nat>, Json>)
    requires Members(s, done).Ok?
    ensures Key(s).Ok? && Value(Key(s).rest).Ok?
    ensures var key, v, next := Key(s).value, Value(Key(s).rest).value, SkipSpace(Value(Key(s).rest).rest);
            && next != "" && (next[0] == '}' || next[0] == ',')
            && Members(s, done) == if next[0] == '}' then Ok(Object(done[key := v]), next[1..])
                                   else Members(SkipSpace(next[1..]), done[key := v])
  {
  }

  lemma KeyAccepted(s: string) returns (key: seq<T.Piece>, afterKey: string, before: string)
    requires Key(s).Ok?
    ensures T.GoodPieces(key) && T.Blank(afterKey) && T.Blank(before) && T.Points(key) == Key(s).value
    ensures s == T.ShowString(key) + (afterKey + (":" + (before + Key(s).rest)))
  {
    var read := Characters(s, s[1..]);
    key := CharactersAccepted(s, s[1..]);
    afterKey := SpaceAccepted(read.rest);
    var colon := SkipSpace(read.rest);
    before := SpaceAccepted(colon[1..]);
    assert colon == ":" + colon[1..];
    StringText(key, read.rest);
    Quoted(s, key, read.rest);
  }

  lemma Quoted(s: string, pieces: seq<T.Piece>, t: string)
    requires s != "" && s[0] == '"' && s[1..] == Rest(pieces, t)
    ensures s == T.ShowString(pieces) + t
  {
    StringText(pieces, t);
    var shown := T.ShowString(pieces) + t;
    assert s == [s[0]] + s[1..] && shown == [shown[0]] + shown[1..];
  }

  lemma AroundMember(a: string, key: string, b: string, c: string, shown: string, d: string, next: string)
    ensures a + (key + (b + (":" + (c + (shown + (d + next)))))) == (a + key + b + ":" + c + shown + d) + next
  {
    Regroup7(a, key, b, c, shown, d, "", next);
    var one := a + key + b + ":" + c + shown + d;
    assert one + "" == one && "" + next == next;
  }

  lemma LastMember(done: map<seq<nat>, Json>, key: seq<nat>, v: Json)
    ensures done[key := v] == done + (map[key := v] + T.Fields([]))
  {
  }

  lemma {:induction false} MembersAccepted(before: string, s: string, done: map<seq<nat>, Json>)
      returns (members: seq<T.Member>)
    requires T.Blank(before) && Members(s, done).Ok?
    ensures members != [] && T.GoodMembers(members)
    ensures before + s == T.ShowMembers(members) + ("}" + Members(s, done).rest)
    ensures Members(s, done).value == Object(done + T.Fields(members))
    decreases |s|, 4
  {
    var t := Members(s, done).rest;
    MembersRead(s, done);
    var key, afterKey, beforeValue := KeyAccepted(s);
    var start := Key(s).rest;
    var d := ValueAccepted(start);
    var points, v, next := T.Points(key), Value(start).value, SkipSpace(Value(start).rest);
    var after := SpaceAccepted(Value(start).rest);
    var m := T.Member(before, key, afterKey, beforeValue, d, after);
    AroundMember(before, T.ShowString(key), afterKey, beforeValue, T.Show(d), after, next);
    if next[0] == '}' {
      members := [m];
      FirstMember(m, []);
      assert next == "}" + t;
      LastMember(done, points, v);
    } else {
      var between := SpaceAccepted(next[1..]);
      var following := SkipSpace(next[1..]);
      var more := MembersAccepted(between, following, done[points := v]);
      members := [m] + more;
      FirstMember(m, more);
      BeforeComma(T.ShowMember(m), next, between, following, T.ShowMembers(more), "}" + t);
      MembersOneByOne(done, points, v, T.Fields(more));
    }
  }

  // ----- values

  lemma Bracketed(s: string, open: string, inside: string, close: string, t: string)
    requires |open| == 1 <= |s| && s[0] == open[0] && s[1..] == inside + (close + t)
    ensures s == (open + inside + close) + t
  {
    assert s == open + s[1..];
  }

  lemma ArrayAccepted(s: string) returns (d: T.Doc)
    requires s != "" && s[0] == '[' && Value(s).Ok?
    ensures T.Good(d) && s == T.Show(d) + Value(s).rest && Value(s).value == T.Meaning(d)
    decreases |s|, 2
  {
    var space := SpaceAccepted(s[1..]);
    var r, t := SkipSpace(s[1..]), Value(s).rest;
    if r != "" && r[0] == ']' {
      d := T.Arr(space, []);
      assert r == "]" + t;
      Bracketed(s, "[", space, "]", t);
    } else {
      var items := ItemsAccepted(space, r, []);
      d := T.Arr("", items);
      Bracketed(s, "[", T.ShowItems(items), "]", t);
      assert [] + T.Meanings(items) == T.Meanings(items);
    }
  }

  lemma ObjectRead(s: string, r: string)
    requires s != "" && s[0] == '{' && r == SkipSpace(s[1..]) && (r == "" || r[0] != '}')
    ensures Value(s) == Members(r, map[])
  {
  }

  lemma ObjectAccepted(s: string) returns (d: T.Doc)
    requires s != "" && s[0] == '{' && Value(s).Ok?
    ensures T.Good(d) && s == T.Show(d) + Value(s).rest && Value(s).value == T.Meaning(d)
    decreases |s|, 2
  {
    var space := SpaceAccepted(s[1..]);
    var r, t := SkipSpace(s[1..]), Value(s).rest;
    if r != "" && r[0] == '}' {
      d := T.Obj(space, []);
      assert r == "}" + t;
      Bracketed(s, "{", space, "}", t);
    } else {
      ObjectRead(s, r);
      var members := MembersAccepted(space, r, map[]);
      d := T.Obj("", members);
      Bracketed(s, "{", T.ShowMembers(members), "}", t);
      NoneBefore(T.Fields(members));
    }
  }

  /** What is read as a value is the text of a document with that meaning. */
  lemma {:induction false} ValueAccepted(s: string) returns (d: T.Doc)
    requires Value(s).Ok?
    ensures T.Good(d) && s == T.Show(d) + Value(s).rest && Value(s).value == T.Meaning(d)
    decreases |s|, 3
  {
    if s[0] == '"' {
      var pieces := CharactersAccepted(s, s[1..]);
      Quoted(s, pieces, Value(s).rest);
      d := T.Str(pieces);
    } else if s[0] == '{' {
      d := ObjectAccepted(s);
    } else if s[0] == '[' {
      d := ArrayAccepted(s);
    } else {
      d := LiteralAccepted(s);
    }
  }

  // ----- whole texts

  /** A document with nothing but space around it. */
  predicate IsTextOf(text: string, before: string, d: T.Doc, after: string) {
    T.Blank(before) && T.Good(d) && T.Blank(after) && text == before + (T.Show(d) + after)
  }

  lemma {:induction false} DocumentIsLoaded(text: string, before: string, d: T.Doc, after: string)
    requires IsTextOf(text, before, d, after)
    ensures Loads(text) == Ok(T.Meaning(d), "")
  {
    ShowStarts(d);
    SpaceSkippedTo(before, T.Show(d) + after);
    ValueShown(d, after);
    SpaceSkippedTo(after, "");
    assert after + "" == after;
  }

  /** `json.loads` accepts exactly the texts of documents, and gives their meaning. */
  lemma LoadsExactlyWhen(text: string, v: Json)
    ensures Loads(text) == Ok(v, "") <==>
              exists before, d, after :: IsTextOf(text, before, d, after) && T.Meaning(d) == v
  {
    if Loads(text) == Ok(v, "") {
      var s := SkipSpace(text);
      var before := SpaceAccepted(text);
      var d := ValueAccepted(s);
      var after := SpaceAccepted(Value(s).rest);
      assert after + "" == after;
      assert IsTextOf(text, before, d, after) && T.Meaning(d) == v;
    }
    forall before, d, after | IsTextOf(text, before, d, after) && T.Meaning(d) == v
      ensures Loads(text) == Ok(v, "")
    {
      DocumentIsLoaded(text, before, d, after);
    }
  }
}
