/**
 The decoder reads every document as it was meant, whatever follows it.
 */
module JsonRoundTrip {
  import opened JsonDecoder
  import T = JsonText

  // ----- characters

  lemma HexAgrees(c: char)
    ensures T.HexDigit(c) >= 0 <==> IsHex(c)
    ensures IsHex(c) ==> HexValue(c) == T.HexDigit(c)
  {
  }

  lemma UnitAgrees(hex: string)
    requires |hex| == 4
    ensures T.GoodHex(hex) <==> IsHex4(hex)
    ensures T.GoodHex(hex) ==> Hex4(hex) == T.UnitOf(hex)
    ensures T.GoodHex(hex) ==> (T.IsHigh(T.UnitOf(hex)) <==> IsHighSurrogate(T.UnitOf(hex)))
  {
    HexAgrees(hex[0]);
    HexAgrees(hex[1]);
    HexAgrees(hex[2]);
    HexAgrees(hex[3]);
  }

  lemma ShortAgrees(c: char)
    ensures T.ShortPoint(c) >= 0 <==> IsSimpleEscape(c)
    ensures IsSimpleEscape(c) ==> SimpleEscape(c) == T.ShortPoint(c)
  {
  }

  // ----- strings

  /** The text of a string from some piece on, to its closing quote and what follows. */
  function Rest(pieces: seq<T.Piece>, t: string): string {
    T.ShowPieces(pieces) + ("\"" + t)
  }

  lemma RestUnfolds(pieces: seq<T.Piece>, t: string)
    requires pieces != []
    ensures Rest(pieces, t) == T.ShowPiece(pieces[0]) + Rest(pieces[1..], t)
  {
    var a, b, c := T.ShowPiece(pieces[0]), T.ShowPieces(pieces[1..]), "\"" + t;
    assert (a + b) + c == a + (b + c);
  }

  lemma UnitText(hex: string, rest: string)
    requires |hex| == 4
    ensures var s := ("\\u" + hex) + rest;
      |s| == 6 + |rest| && s[0] == '\\' && s[1] == 'u' && s[2..6] == hex && s[6..] == rest
  {
  }

  lemma {:induction false} CharactersShown(open: string, pieces: seq<T.Piece>, t: string)
    requires T.GoodPieces(pieces)
    ensures Characters(open, Rest(pieces, t)) == Ok(T.Points(pieces), t)
    decreases |pieces|
  {
    if pieces == [] {
      assert Rest(pieces, t) == "\"" + t;
      assert ("\"" + t)[1..] == t;
    } else {
      RestUnfolds(pieces, t);
      assert T.GoodPiece(pieces[0]) && T.GoodPieces(pieces[1..]);
      match pieces[0]
      case Plain(c) =>
        CharactersShown(open, pieces[1..], t);
        assert ([c] + Rest(pieces[1..], t))[1..] == Rest(pieces[1..], t);
      case Short(c) =>
        CharactersShown(open, pieces[1..], t);
        ShortAgrees(c);
        ShortRead(open, c, Rest(pieces[1..], t));
      case Unit(hex) =>
        UnitAgrees(hex);
        UnitText(hex, Rest(pieces[1..], t));
        AfterUnitShown(open, pieces, t);
    }
  }

  lemma ShortRead(open: string, c: char, rest: string)
    requires IsSimpleEscape(c)
    ensures Characters(open, ("\\" + [c]) + rest) == Prepend(SimpleEscape(c), Characters(open, rest))
  {
    var s := ("\\" + [c]) + rest;
    assert s[0] == '\\' && s[1] == c && s[2..] == rest;
  }

  lemma {:induction false} AfterUnitShown(open: string, pieces: seq<T.Piece>, t: string)
    requires T.GoodPieces(pieces) && pieces != [] && pieces[0].Unit?
    requires T.GoodHex(pieces[0].hex)
    ensures AfterEscape(open, T.UnitOf(pieces[0].hex), Rest(pieces[1..], t)) == Ok(T.Points(pieces), t)
    decreases |pieces|, 0
  {
    var u, rest := T.UnitOf(pieces[0].hex), pieces[1..];
    var s := Rest(rest, t);
    UnitAgrees(pieces[0].hex);
    CharactersShown(open, rest, t);
    if rest != [] && rest[0].Unit? {
      assert T.GoodPiece(rest[0]) && T.GoodPieces(rest[1..]);
      UnitBeginsRest(rest, t);
      UnitAgrees(rest[0].hex);
      if T.StartsWithPair(pieces) {
        CharactersShown(open, rest[1..], t);
        assert rest[1..] == pieces[2..];
        PairRead(open, u, s);
      } else {
        LoneUnitRead(open, u, s);
      }
    } else {
      NoUnitBeginsRest(rest, t);
      LoneUnitRead(open, u, s);
    }
  }

  predicate UnitNext(s: string) {
    |s| > 6 && s[0] == '\\' && s[1] == 'u'
  }

  lemma PairRead(open: string, u: nat, s: string)
    requires IsHighSurrogate(u) && UnitNext(s) && IsHex4(s[2..6]) && IsLowSurrogate(Hex4(s[2..6]))
    ensures AfterEscape(open, u, s) == Prepend(T.Together(u, Hex4(s[2..6])), Characters(open, s[6..]))
  {
  }

  lemma LoneUnitRead(open: string, u: nat, s: string)
    requires IsHighSurrogate(u) && UnitNext(s) ==> IsHex4(s[2..6]) && !IsLowSurrogate(Hex4(s[2..6]))
    ensures AfterEscape(open, u, s) == Prepend(u, Characters(open, s))
  {
  }

  lemma UnitBeginsRest(pieces: seq<T.Piece>, t: string)
    requires pieces != [] && pieces[0].Unit? && |pieces[0].hex| == 4
    ensures var s := Rest(pieces, t);
      |s| > 6 && s[0] == '\\' && s[1] == 'u' && s[2..6] == pieces[0].hex && s[6..] == Rest(pieces[1..], t)
  {
    RestUnfolds(pieces, t);
    UnitText(pieces[0].hex, Rest(pieces[1..], t));
  }

  lemma NoUnitBeginsRest(pieces: seq<T.Piece>, t: string)
    requires T.GoodPieces(pieces) && (pieces != [] ==> !pieces[0].Unit?)
    ensures var s := Rest(pieces, t); s != "" && (s[0] == '\\' && |s| > 1 ==> s[1] != 'u')
  {
    if pieces == [] {
      assert Rest(pieces, t) == "\"" + t;
    } else {
      RestUnfolds(pieces, t);
      assert T.GoodPiece(pieces[0]);
      match pieces[0]
      case Plain(c) =>
        assert Rest(pieces, t)[0] == c;
      case Short(c) =>
        assert Rest(pieces, t)[1] == c;
    }
  }

  // ----- numbers

  /** What follows does not go on with a number. */
  predicate NoNumberGoesOn(t: string) {
    t == "" || !(IsDigit(t[0]) || t[0] == '.' || t[0] == 'e' || t[0] == 'E')
  }

  lemma {:induction false} DigitsRead(digits: string, t: string)
    requires forall i :: 0 <= i < |digits| ==> '0' <= digits[i] <= '9'
    requires t == "" || !IsDigit(t[0])
    ensures Digits(digits + t) == t
  {
    if digits == "" {
      assert digits + t == t;
    } else {
      assert (digits + t)[1..] == digits[1..] + t;
      DigitsRead(digits[1..], t);
    }
  }

  lemma WholeRead(whole: string, t: string)
    requires T.AllDigits(whole) && (whole[0] == '0' ==> whole == "0") && (t == "" || !IsDigit(t[0]))
    ensures IsDigit((whole + t)[0]) && Whole(whole + t) == t
  {
    DigitsRead(whole, t);
    assert (whole + t)[0] == whole[0];
    if whole[0] == '0' {
      assert (whole + t)[1..] == t;
    }
  }

  lemma FractionRead(f: T.Fraction, t: string)
    requires f.Point? ==> T.AllDigits(f.digits)
    requires t == "" || !(IsDigit(t[0]) || t[0] == '.')
    ensures Fraction(T.ShowFraction(f) + t) == t
  {
    if f.Point? {
      var s := ("." + f.digits) + t;
      assert s[0] == '.' && s[1] == f.digits[0] && s[1..] == f.digits + t;
      DigitsRead(f.digits, t);
    } else {
      assert "" + t == t;
    }
  }

  lemma ExponentRead(e: T.Exponent, t: string)
    requires e.Power? ==> (e.mark == 'e' || e.mark == 'E') && T.AllDigits(e.digits)
    requires e.Power? ==> e.sign == "" || e.sign == "+" || e.sign == "-"
    requires NoNumberGoesOn(t)
    ensures Exponent(T.ShowExponent(e) + t) == t
  {
    if e.Power? {
      var s := ([e.mark] + e.sign + e.digits) + t;
      PowerRead(s, e.mark, e.sign, e.digits, t);
    } else {
      assert "" + t == t;
    }
  }

  lemma PowerRead(s: string, mark: char, sign: string, digits: string, t: string)
    requires s == ([mark] + sign + digits) + t && T.AllDigits(digits)
    requires (sign == "" || sign == "+" || sign == "-") && (mark == 'e' || mark == 'E') && NoNumberGoesOn(t)
    ensures Exponent(s) == t
  {
    DigitsRead(digits, t);
    assert s[0] == mark && |s| >= 2;
    if sign == "" {
      assert s[1] == digits[0] && s[1..] == digits + t;
    } else {
      assert s[1] == sign[0] && s[2..] == digits + t;
    }
    assert ExponentDigits(s) == digits + t && (digits + t)[0] == digits[0];
  }

  lemma UnsignedRead(n: T.Numeral, t: string)
    requires T.GoodNumeral(n) && NoNumberGoesOn(t)
    ensures var u := T.ShowUnsigned(n) + t;
      u != "" && IsDigit(u[0]) && AfterUnsigned(u) == t
  {
    var frac, exp := T.ShowFraction(n.fraction), T.ShowExponent(n.exponent);
    var afterFraction := exp + t;
    var afterWhole := frac + afterFraction;
    assert T.ShowUnsigned(n) + t == n.whole + afterWhole;
    assert afterFraction == "" || !(IsDigit(afterFraction[0]) || afterFraction[0] == '.');
    assert afterWhole == "" || !IsDigit(afterWhole[0]);
    WholeRead(n.whole, afterWhole);
    FractionRead(n.fraction, afterFraction);
    ExponentRead(n.exponent, t);
  }

  lemma NumeralShown(n: T.Numeral, t: string)
    requires T.GoodNumeral(n) && NoNumberGoesOn(t)
    ensures Value(T.ShowNumeral(n) + t) == Ok(Number(T.ShowNumeral(n)), t)
  {
    var u := T.ShowUnsigned(n) + t;
    var s := T.ShowNumeral(n) + t;
    UnsignedRead(n, t);
    SignShown(n.minus, T.ShowUnsigned(n), t);
    BeginsLikeANumber(s, u);
    NumeralRead(s, T.ShowNumeral(n), u, t);
  }

  lemma SignShown(minus: bool, shown: string, t: string)
    ensures var s, u := ((if minus then "-" else "") + shown) + t, shown + t;
      if minus then s != "" && s[0] == '-' && s[1..] == u else s == u
  {
    if !minus {
      assert "" + shown == shown;
    }
  }

  lemma NumeralRead(s: string, shown: string, u: string, t: string)
    requires s == shown + t && s != "" && Unsigned(s) == u && u != "" && IsDigit(u[0]) && AfterUnsigned(u) == t
    ensures Numeral(s) == Ok(Number(shown), t)
  {
    assert s[..|s| - |t|] == shown;
  }

  lemma BeginsLikeANumber(s: string, u: string)
    requires s != "" && u != "" && IsDigit(u[0]) && (s == u || (s[0] == '-' && s[1..] == u))
    ensures Value(s) == Numeral(s) && Unsigned(s) == u
  {
    if s[0] == '-' {
      assert s[1] == u[0] && "-Infinity"[1] == 'I';
    }
  }

  // ----- words

  lemma WordShown(name: string, t: string)
    requires name in T.WORDS
    ensures Value(name + t) == Ok(T.WORDS[name], t)
  {
    var s := name + t;
    assert name <= s && s[|name|..] == t && s[0] == name[0];
    assert name == "null" || name == "true" || name == "false"
        || name == "NaN" || name == "Infinity" || name == "-Infinity";
  }

  // ----- space

  lemma {:induction false} SpaceSkipped(space: string, t: string)
    requires T.Blank(space)
    ensures SkipSpace(space + t) == SkipSpace(t)
  {
    if space == "" {
      assert space + t == t;
    } else {
      assert (space + t)[1..] == space[1..] + t;
      SpaceSkipped(space[1..], t);
    }
  }

  lemma SpaceAgrees(c: char)
    ensures T.IsBlank(c) <==> IsSpace(c)
  {
  }

  lemma SpaceSkippedTo(space: string, t: string)
    requires T.Blank(space) && (t == "" || !IsSpace(t[0]))
    ensures SkipSpace(space + t) == t
  {
    SpaceSkipped(space, t);
  }

  lemma SeparatorRead(space: string, next: string, close: char)
    requires T.Blank(space) && next != "" && (next[0] == close || next[0] == ',') && !IsSpace(close) && close != ','
    ensures next[0] == close ==> Separate(space + next, close) == Closed(next[1..])
    ensures next[0] == ',' ==> Separate(space + next, close) == Comma(SkipSpace(next[1..]))
  {
    SpaceSkippedTo(space, next);
  }

  lemma SpaceEndsANumber(space: string, next: string)
    requires T.Blank(space) && next != "" && (next[0] == ',' || next[0] == ']' || next[0] == '}')
    ensures NoNumberGoesOn(space + next)
  {
    if space == "" {
      assert space + next == next;
    } else {
      assert (space + next)[0] == space[0];
    }
  }

  // ----- documents

  /** What may follow a document: not what would go on with it if it is a number. */
  predicate MayFollow(d: T.Doc, t: string) {
    d.Num? ==> NoNumberGoesOn(t)
  }

  lemma ShowStarts(d: T.Doc)
    requires T.Good(d)
    ensures T.Show(d) != "" && !IsSpace(T.Show(d)[0])
    ensures T.Show(d)[0] != ']' && T.Show(d)[0] != '}'
  {
    match d
    case Word(name) =>
      assert name == "null" || name == "true" || name == "false" || name == "NaN" || name == "Infinity"
          || name == "-Infinity";
    case Num(numeral) =>
      assert T.ShowUnsigned(numeral)[0] == numeral.whole[0];
      assert T.ShowNumeral(numeral)[0] == '-' || T.ShowNumeral(numeral)[0] == numeral.whole[0];
    case _ =>
  }

  /** An array's text from the first item on, and what follows. */
  function ItemsRest(items: seq<T.Item>, t: string): string
    requires items != []
    decreases |items|, 1
  {
    T.Show(items[0].value) + (items[0].after + AfterItem(items, t))
  }

  function AfterItem(items: seq<T.Item>, t: string): string
    requires items != []
    decreases |items|, 0
  {
    if |items| == 1 then "]" + t else "," + (items[1].before + ItemsRest(items[1..], t))
  }

  lemma {:induction false} ItemsText(items: seq<T.Item>, t: string)
    requires items != []
    ensures T.ShowItems(items) + ("]" + t) == items[0].before + ItemsRest(items, t)
    decreases |items|
  {
    var before, shown, after := items[0].before, T.Show(items[0].value), items[0].after;
    if |items| == 1 {
      Regroup(before, shown, after, "", "]" + t);
      assert T.ShowItems(items) == before + shown + after + "";
    } else {
      var rest := items[1..];
      ItemsText(rest, t);
      Regroup(before, shown, after, "," + T.ShowItems(rest), "]" + t);
      assert before + shown + after + "," + T.ShowItems(rest) == before + shown + after + ("," + T.ShowItems(rest));
      assert ("," + T.ShowItems(rest)) + ("]" + t) == "," + (T.ShowItems(rest) + ("]" + t));
    }
  }

  lemma Regroup(a: string, b: string, c: string, d: string, e: string)
    ensures (a + b + c + d) + e == a + (b + (c + (d + e)))
  {
  }

  lemma {:induction false} ItemsShown(items: seq<T.Item>, done: seq<Json>, t: string)
    requires items != [] && T.GoodItems(items)
    ensures Items(ItemsRest(items, t), done) == Ok(Array(done + T.Meanings(items)), t)
    decreases items, 0
  {
    var item, next := items[0], AfterItem(items, t);
    assert T.GoodItem(item) && T.GoodItems(items[1..]);
    SpaceEndsANumber(item.after, next);
    ValueShown(item.value, item.after + next);
    SeparatorRead(item.after, next, ']');
    if |items| == 1 {
      assert next[1..] == t;
      assert items[1..] == [] && T.Meanings(items[1..]) == [];
      assert T.Meanings(items) == [T.Meaning(item.value)];
    } else {
      var rest := items[1..];
      assert T.GoodItem(rest[0]);
      assert next[1..] == rest[0].before + ItemsRest(rest, t);
      ShowStarts(rest[0].value);
      SpaceSkippedTo(rest[0].before, ItemsRest(rest, t));
      ItemsShown(rest, done + [T.Meaning(item.value)], t);
      assert done + ([T.Meaning(item.value)] + T.Meanings(rest)) == (done + [T.Meaning(item.value)]) + T.Meanings(rest);
    }
  }

  lemma BracketsText(inside: string, t: string)
    ensures var s := ("[" + inside + "]") + t; s != "" && s[0] == '[' && s[1..] == inside + ("]" + t)
  {
  }

  lemma EmptyArrayStarts(space: string, t: string)
    requires T.Blank(space)
    ensures var s := ("[" + space + "]") + t; s != "" && s[0] == '[' && SkipSpace(s[1..]) == "]" + t
  {
    BracketsText(space, t);
    SpaceSkippedTo(space, "]" + t);
  }

  lemma ArrayStarts(items: seq<T.Item>, t: string)
    requires items != [] && T.GoodItems(items)
    ensures var s := ("[" + T.ShowItems(items) + "]") + t;
      s != "" && s[0] == '[' && SkipSpace(s[1..]) == ItemsRest(items, t)
    ensures ItemsRest(items, t) != "" && ItemsRest(items, t)[0] != ']'
  {
    BracketsText(T.ShowItems(items), t);
    ItemsText(items, t);
    assert T.GoodItem(items[0]);
    ShowStarts(items[0].value);
    SpaceSkippedTo(items[0].before, ItemsRest(items, t));
  }

  lemma {:induction false} ArrayShown(space: string, items: seq<T.Item>, t: string)
    requires T.Good(T.Arr(space, items))
    ensures Value(T.Show(T.Arr(space, items)) + t) == Ok(T.Meaning(T.Arr(space, items)), t)
    decreases items, 1
  {
    if items == [] {
      EmptyArrayStarts(space, t);
      assert ("]" + t)[1..] == t;
    } else {
      ArrayStarts(items, t);
      ItemsShown(items, [], t);
      assert [] + T.Meanings(items) == T.Meanings(items);
    }
  }

  /** An object's text from the first key on, and what follows. */
  function MembersRest(members: seq<T.Member>, t: string): string
    requires members != []
    decreases |members|, 1
  {
    T.ShowString(members[0].key) + (members[0].afterKey + (":" + (members[0].before + MemberRest(members, t))))
  }

  function MemberRest(members: seq<T.Member>, t: string): string
    requires members != []
    decreases |members|, 0
  {
    T.Show(members[0].value) + (members[0].after + AfterMember(members, t))
  }

  function AfterMember(members: seq<T.Member>, t: string): string
    requires members != []
    decreases |members|, -1
  {
    if |members| == 1 then "}" + t else "," + (members[1].beforeKey + MembersRest(members[1..], t))
  }

  lemma Regroup7(a: string, b: string, c: string, d: string, e: string, f: string, g: string, h: string)
    ensures (a + b + c + ":" + d + e + f + g) + h == a + (b + (c + (":" + (d + (e + (f + (g + h)))))))
  {
    Regroup(a, b, c, ":" + d + e + f + g, h);
    assert a + b + c + ":" + d + e + f + g == a + b + c + (":" + d + e + f + g);
    Regroup(":", d, e, f + g, h);
    assert ":" + d + e + f + g == ":" + d + e + (f + g);
    assert (f + g) + h == f + (g + h);
  }

  lemma {:induction false} MembersText(members: seq<T.Member>, t: string)
    requires members != []
    ensures T.ShowMembers(members) + ("}" + t) == members[0].beforeKey + MembersRest(members, t)
    decreases |members|
  {
    var m := members[0];
    var key, shown := T.ShowString(m.key), T.Show(m.value);
    var one := T.ShowMember(m);
    if |members| == 1 {
      Regroup7(m.beforeKey, key, m.afterKey, m.before, shown, m.after, "", "}" + t);
      assert one + "" == one && T.ShowMembers(members) == one;
      assert "" + ("}" + t) == "}" + t;
      assert MemberRest(members, t) == shown + (m.after + ("}" + t));
    } else {
      var rest := members[1..];
      MembersText(rest, t);
      Regroup7(m.beforeKey, key, m.afterKey, m.before, shown, m.after, "," + T.ShowMembers(rest), "}" + t);
      CommaGroups(one, T.ShowMembers(rest), "}" + t);
      assert T.ShowMembers(members) == one + "," + T.ShowMembers(rest);
      assert MemberRest(members, t) == shown + (m.after + ("," + (rest[0].beforeKey + MembersRest(rest, t))));
    }
  }

  lemma CommaGroups(a: string, b: string, c: string)
    ensures a + "," + b == a + ("," + b) && ("," + b) + c == "," + (b + c)
  {
  }

  lemma KeyShown(key: seq<T.Piece>, afterKey: string, before: string, rest: string)
    requires T.GoodPieces(key) && T.Blank(afterKey) && T.Blank(before)
    requires rest != "" && !IsSpace(rest[0])
    ensures Key(T.ShowString(key) + (afterKey + (":" + (before + rest)))) == Ok(T.Points(key), rest)
  {
    var t := afterKey + (":" + (before + rest));
    StringText(key, t);
    CharactersShown(T.ShowString(key) + t, key, t);
    SpaceSkippedTo(afterKey, ":" + (before + rest));
    assert (":" + (before + rest))[1..] == before + rest;
    SpaceSkippedTo(before, rest);
  }

  lemma StringText(pieces: seq<T.Piece>, t: string)
    ensures var s := T.ShowString(pieces) + t; s != "" && s[0] == '"' && s[1..] == Rest(pieces, t)
  {
    var body := T.ShowPieces(pieces);
    assert ("\"" + body + "\"") + t == "\"" + (body + ("\"" + t));
  }

  /** How reading one member goes on. */
  lemma MemberRead(s: string, done: map<seq<nat>, Json>, key: seq<nat>, start: string, v: Json, afterValue: string)
    requires Key(s) == Ok(key, start) && Value(start) == Ok(v, afterValue)
    ensures var next := Separate(afterValue, '}');
            && (next.Closed? ==> Members(s, done) == Ok(Object(done[key := v]), next.rest))
            && (next.Comma? ==> Members(s, done) == Members(next.rest, done[key := v]))
  {
  }

  lemma MembersOneByOne(done: map<seq<nat>, Json>, key: seq<nat>, v: Json, later: map<seq<nat>, Json>)
    ensures done + (map[key := v] + later) == done[key := v] + later
  {
  }

  lemma MemberShown(members: seq<T.Member>, done: map<seq<nat>, Json>, v: Json, t: string)
    requires members != [] && T.GoodMembers(members) && T.GoodMember(members[0])
    requires Value(MemberRest(members, t)) == Ok(v, members[0].after + AfterMember(members, t))
    ensures var more := done[T.Points(members[0].key) := v];
            Members(MembersRest(members, t), done) ==
            if |members| == 1 then Ok(Object(more), t) else Members(MembersRest(members[1..], t), more)
  {
    var m, start := members[0], MemberRest(members, t);
    ShowStarts(m.value);
    KeyShown(m.key, m.afterKey, m.before, start);
    MemberRead(MembersRest(members, t), done, T.Points(m.key), start, v, m.after + AfterMember(members, t));
    MemberSeparated(members, t);
  }

  lemma NoneAfter(fields: map<seq<nat>, Json>)
    ensures fields + T.Fields([]) == fields
  {
  }

  lemma {:induction false} MembersShown(members: seq<T.Member>, done: map<seq<nat>, Json>, t: string)
    requires members != [] && T.GoodMembers(members)
    ensures Members(MembersRest(members, t), done) == Ok(Object(done + T.Fields(members)), t)
    decreases members, 0
  {
    var m, next := members[0], AfterMember(members, t);
    assert T.GoodMember(m);
    SpaceEndsANumber(m.after, next);
    ValueShown(m.value, m.after + next);
    var key, v, later := T.Points(m.key), T.Meaning(m.value), T.Fields(members[1..]);
    MemberShown(members, done, v, t);
    MembersOneByOne(done, key, v, later);
    if |members| == 1 {
      NoneAfter(done[key := v]);
    } else {
      MembersShown(members[1..], done[key := v], t);
    }
  }

  lemma MemberSeparated(members: seq<T.Member>, t: string)
    requires members != [] && T.GoodMembers(members)
    ensures var next := Separate(members[0].after + AfterMember(members, t), '}');
            if |members| == 1 then next == Closed(t) else next == Comma(MembersRest(members[1..], t))
  {
    var next := AfterMember(members, t);
    assert T.GoodMember(members[0]) && T.GoodMembers(members[1..]);
    SeparatorRead(members[0].after, next, '}');
    if |members| == 1 {
      assert next[1..] == t;
    } else {
      var rest := members[1..];
      assert T.GoodMember(rest[0]);
      assert next[1..] == rest[0].beforeKey + MembersRest(rest, t);
      MembersStart(rest, t);
      SpaceSkippedTo(rest[0].beforeKey, MembersRest(rest, t));
    }
  }

  lemma MembersStart(members: seq<T.Member>, t: string)
    requires members != []
    ensures MembersRest(members, t) != "" && MembersRest(members, t)[0] == '"'
  {
  }

  lemma NoneBefore(fields: map<seq<nat>, Json>)
    ensures map[] + fields == fields
  {
  }

  lemma BracesText(inside: string, t: string)
    ensures var s := ("{" + inside + "}") + t; s != "" && s[0] == '{' && s[1..] == inside + ("}" + t)
  {
  }

  lemma EmptyObjectShown(space: string, t: string)
    requires T.Blank(space)
    ensures Value(("{" + space + "}") + t) == Ok(Object(map[]), t)
  {
    BracesText(space, t);
    SpaceSkippedTo(space, "}" + t);
    assert ("}" + t)[1..] == t;
  }

  lemma {:induction false} ObjectShown(space: string, members: seq<T.Member>, t: string)
    requires T.Good(T.Obj(space, members)) && members != []
    ensures Value(("{" + T.ShowMembers(members) + "}") + t) == Ok(Object(T.Fields(members)), t)
    decreases members, 1
  {
    BracesText(T.ShowMembers(members), t);
    MembersText(members, t);
    assert T.GoodMember(members[0]);
    MembersStart(members, t);
    SpaceSkippedTo(members[0].beforeKey, MembersRest(members, t));
    MembersShown(members, map[], t);
    NoneBefore(T.Fields(members));
  }

  /** Every document is read as it was meant, and no further. */
  lemma {:induction false} ValueShown(d: T.Doc, t: string)
    requires T.Good(d) && MayFollow(d, t)
    ensures Value(T.Show(d) + t) == Ok(T.Meaning(d), t)
    decreases d, 2
  {
    match d
    case Word(name) => WordShown(name, t);
    case Num(numeral) => NumeralShown(numeral, t);
    case Str(pieces) =>
      StringText(pieces, t);
      CharactersShown(T.ShowString(pieces) + t, pieces, t);
    case Arr(space, items) => ArrayShown(space, items, t);
    case Obj(space, members) =>
      if members == [] { EmptyObjectShown(space, t); } else { ObjectShown(space, members, t); }
  }
}
