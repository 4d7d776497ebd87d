/**
 What the decoder's answer on a text `s` says about its answer on a longer text `s + t`.

 `Agrees` holds for every decoding function and is the whole of what the chunked reader needs:
 a value that cannot be a cut number stays, a definite error stays, and a value that ends inside
 `s` was already there.
 */
module JsonDecoderLaws {
  import opened JsonDecoder

  /** `w` is `a`, followed by `t`. */
  ghost predicate Followed<T>(a: Decoded<T>, w: Decoded<T>, t: string) {
    match a
    case Ok(v, rest) => w == Ok(v, rest + t)
    case Bad(unterminated, tail) => w == Bad(unterminated, tail + t)
  }

  ghost predicate Agrees<T>(a: Decoded<T>, w: Decoded<T>, t: string) {
    && (a.Ok? && !NumberTail(a.rest) ==> Followed(a, w, t))
    && (a.Bad? && !MayBeIncomplete(a) ==> Followed(a, w, t))
    && (w.Ok? && |w.rest| >= |t| ==> a.Ok? && Followed(a, w, t))
  }

  /** `Agrees`, and a value is never a cut one. */
  ghost predicate AgreesFully<T>(a: Decoded<T>, w: Decoded<T>, t: string) {
    Agrees(a, w, t) && (a.Ok? ==> Followed(a, w, t))
  }

  lemma TakeDrop(s: string, t: string, k: nat)
    requires k <= |s|
    ensures (s + t)[k..] == s[k..] + t
    ensures forall m :: k <= m <= |s| ==> (s + t)[k..m] == s[k..m]
  {
  }

  lemma {:induction false} SkipSpaceExtends(s: string, t: string)
    ensures SkipSpace(s) != "" ==> SkipSpace(s + t) == SkipSpace(s) + t
    ensures SkipSpace(s) == "" ==> SkipSpace(s + t) == SkipSpace(t)
    ensures SkipSpace(s) != "" ==> !IsSpace(SkipSpace(s)[0])
  {
    if s == "" {
      assert s + t == t;
    } else {
      TakeDrop(s, t, 1);
      SkipSpaceExtends(s[1..], t);
    }
  }

  lemma {:induction false} DigitsExtends(s: string, t: string)
    ensures Digits(s) != "" ==> Digits(s + t) == Digits(s) + t
    ensures Digits(s) == "" ==> Digits(s + t) == Digits(t)
    ensures |Digits(s + t)| >= |t| ==> Digits(s + t) == Digits(s) + t
  {
    if s == "" {
      assert s + t == t;
    } else {
      TakeDrop(s, t, 1);
      DigitsExtends(s[1..], t);
    }
  }

  lemma FractionExtends(s: string, t: string)
    ensures !NumberTail(Fraction(s)) ==> Fraction(s + t) == Fraction(s) + t
    ensures |Fraction(s + t)| >= |t| ==> Fraction(s + t) == Fraction(s) + t
  {
    if s != "" {
      TakeDrop(s, t, 1);
      DigitsExtends(s[1..], t);
    } else {
      assert s + t == t;
      DigitsExtends(t, "");
    }
  }

  lemma ExponentExtends(s: string, t: string)
    ensures !NumberTail(Exponent(s)) ==> Exponent(s + t) == Exponent(s) + t
    ensures |Exponent(s + t)| >= |t| ==> Exponent(s + t) == Exponent(s) + t
  {
    if s == "" {
      assert s + t == t;
    } else if IsExponentMark(s[0]) {
      var d := ExponentDigits(s);
      TakeDrop(s, t, 1);
      if d != "" {
        TakeDrop(s, t, |s| - |d|);
        assert ExponentDigits(s + t) == d + t;
        DigitsExtends(d, t);
      }
    }
  }

  lemma WholeExtends(u: string, t: string)
    requires u != "" && IsDigit(u[0])
    ensures Whole(u) != "" ==> Whole(u + t) == Whole(u) + t
    ensures |Whole(u + t)| >= |t| ==> Whole(u + t) == Whole(u) + t
  {
    TakeDrop(u, t, 1);
    DigitsExtends(u, t);
  }

  lemma AfterUnsignedExtends(u: string, t: string)
    requires u != "" && IsDigit(u[0])
    requires !NumberTail(AfterUnsigned(u)) || |AfterUnsigned(u + t)| >= |t|
    ensures AfterUnsigned(u + t) == AfterUnsigned(u) + t
  {
    var w, f := Whole(u), Fraction(Whole(u));
    var wt, ft := Whole(u + t), Fraction(Whole(u + t));
    assert |wt| >= |ft| >= |Exponent(ft)|;
    WholeExtends(u, t);
    assert wt == w + t by {
      assert w == "" ==> f == "" && Exponent(f) == "";
    }
    FractionExtends(w, t);
    assert ft == f + t by {
      assert NumberTail(f) ==> Exponent(f) == f;
    }
    ExponentExtends(f, t);
  }

  lemma UnsignedExtends(s: string, t: string)
    requires s != "" && s != "-"
    ensures Unsigned(s) != "" && Unsigned(s + t) == Unsigned(s) + t
  {
    TakeDrop(s, t, |s| - |Unsigned(s)|);
  }

  lemma LexemeStays(s: string, rest: string, t: string)
    requires |rest| <= |s|
    ensures (s + t)[..|s + t| - |rest + t|] == s[..|s| - |rest|]
  {
  }

  lemma NumeralAgrees(s: string, t: string)
    requires s != "" && s != "-"
    ensures Agrees(Numeral(s), Numeral(s + t), t)
  {
    var u := Unsigned(s);
    UnsignedExtends(s, t);
    if IsDigit(u[0]) {
      var rest, long := AfterUnsigned(u), AfterUnsigned(u + t);
      if !NumberTail(rest) || |long| >= |t| {
        AfterUnsignedExtends(u, t);
        LexemeStays(s, rest, t);
      }
    }
  }

  lemma PrefixExtends(word: string, s: string, t: string)
    ensures word <= s ==> word <= s + t && (s + t)[|word|..] == s[|word|..] + t
    ensures word <= s + t && !(word <= s) ==> s < word && |s + t| - |word| < |t|
  {
  }

  lemma CutWordIsIncomplete(s: string)
    requires s != "" && s < Word(s[0]).0
    ensures Numeral(s) == Bad(false, s) && IncompleteTail(s)
  {
    var word := Word(s[0]).0;
    assert forall i :: 0 <= i < |s| ==> s[i] == word[i];
  }

  lemma LiteralAgrees(s: string, t: string)
    requires s != ""
    ensures Agrees(Literal(s), Literal(s + t), t)
  {
    var word := Word(s[0]).0;
    assert (s + t)[0] == s[0];
    PrefixExtends(word, s, t);
    if word != "" && !(word <= s) && word <= s + t {
      CutWordIsIncomplete(s);
    } else if s == "-" {
      CutWordIsIncomplete(s);
    } else if !(word != "" && word <= s) {
      NumeralAgrees(s, t);
    }
  }

  lemma PrependAgrees(u: nat, a: Decoded<seq<nat>>, w: Decoded<seq<nat>>, t: string)
    requires AgreesFully(a, w, t)
    ensures AgreesFully(Prepend(u, a), Prepend(u, w), t)
  {
  }

  lemma {:induction false} CharactersAgree(open: string, s: string, t: string)
    ensures AgreesFully(Characters(open, s), Characters(open + t, s + t), t)
    decreases |s|, 2
  {
    if s == "" || s[0] == '"' {
      TakeDrop(s, t, if s == "" then 0 else 1);
    } else if s[0] != '\\' {
      if s[0] as int > 0x1f {
        TakeDrop(s, t, 1);
        CharactersAgree(open, s[1..], t);
        PrependAgrees(s[0] as nat, Characters(open, s[1..]), Characters(open + t, s[1..] + t), t);
      }
    } else if |s| >= 2 {
      if s[1] != 'u' {
        if IsSimpleEscape(s[1]) {
          TakeDrop(s, t, 2);
          CharactersAgree(open, s[2..], t);
          PrependAgrees(SimpleEscape(s[1]), Characters(open, s[2..]), Characters(open + t, s[2..] + t), t);
        }
      } else {
        UnicodeEscapeAgrees(open, s, t);
      }
    }
  }

  lemma {:induction false} UnicodeEscapeAgrees(open: string, s: string, t: string)
    requires |s| >= 2 && s[0] == '\\' && s[1] == 'u'
    ensures AgreesFully(Characters(open, s), Characters(open + t, s + t), t)
    decreases |s|, 0
  {
    TakeDrop(s, t, 1);
    TakeDrop(s, t, 2);
    if |s| > 6 && IsHex4(s[2..6]) {
      TakeDrop(s, t, 6);
      AfterEscapeAgrees(open, Hex4(s[2..6]), s[6..], t);
    }
  }

  /** With more text the decoder may read a second escape together with the first, where the cut text
      ends inside it. */
  lemma {:induction false} AfterEscapeAgrees(open: string, u: nat, s: string, t: string)
    ensures AgreesFully(AfterEscape(open, u, s), AfterEscape(open + t, u, s + t), t)
    decreases |s|, 3
  {
    CharactersAgree(open, s, t);
    PrependAgrees(u, Characters(open, s), Characters(open + t, s + t), t);
    if |s| > 6 {
      TakeDrop(s, t, 1);
      TakeDrop(s, t, 2);
      TakeDrop(s, t, 6);
      if IsHighSurrogate(u) && s[0] == '\\' && s[1] == 'u' && IsHex4(s[2..6]) && IsLowSurrogate(Hex4(s[2..6])) {
        CharactersAgree(open, s[6..], t);
        PrependAgrees(JoinSurrogates(u, Hex4(s[2..6])), Characters(open, s[6..]), Characters(open + t, s[6..] + t), t);
      }
    } else {
      CutEscapeAgrees(open, u, s, t);
    }
  }

  /** The cut text ends inside the second escape, or before it. */
  lemma CutEscapeAgrees(open: string, u: nat, s: string, t: string)
    requires |s| <= 6
    requires AgreesFully(Prepend(u, Characters(open, s)), Prepend(u, Characters(open + t, s + t)), t)
    ensures AgreesFully(AfterEscape(open, u, s), AfterEscape(open + t, u, s + t), t)
  {
  }

  ghost predicate SeparatorFollowed(a: Separator, w: Separator, t: string) {
    match a
    case Closed(rest) => w == Closed(rest + t)
    case Comma(rest) => w == Comma(if rest == "" then SkipSpace(t) else rest + t)
    case Missing(tail) =>
      if tail == "" then |w.rest| <= |t| && (!w.Missing? ==> |w.rest| < |t|)
      else w == Missing(tail + t)
  }

  lemma SeparateExtends(s: string, close: char, t: string)
    ensures SeparatorFollowed(Separate(s, close), Separate(s + t, close), t)
  {
    SkipSpaceExtends(s, t);
    var next := SkipSpace(s);
    if next != "" {
      TakeDrop(next, t, 1);
      SkipSpaceExtends(next[1..], t);
    }
  }

  /** A number cut by the end of the text is followed by something that is reported as a tail
      that may still continue. */
  lemma CutNumberIsMissing(s: string, close: char)
    requires NumberTail(s) && close != '.' && !IsExponentMark(close)
    ensures Separate(s, close) == Missing(s)
  {
  }

  lemma KeyAgrees(s: string, t: string)
    ensures Agrees(Key(s), Key(s + t), t)
    ensures Key(s).Ok? && Key(s).rest == "" ==> Key(s + t) == Ok(Key(s).value, SkipSpace(t))
    ensures Key(s).Ok? && Key(s).rest != "" ==> Followed(Key(s), Key(s + t), t)
  {
    if s != "" && s[0] == '"' {
      TakeDrop(s, t, 1);
      CharactersAgree(s, s[1..], t);
      var a := Characters(s, s[1..]);
      if a.Ok? {
        ColonAgrees(a.value, a.rest, t);
      }
    }
  }

  lemma ColonAgrees(key: seq<nat>, s: string, t: string)
    ensures Agrees(PastColon(key, s), PastColon(key, s + t), t)
    ensures PastColon(key, s).Ok? && PastColon(key, s).rest == "" ==> PastColon(key, s + t) == Ok(key, SkipSpace(t))
    ensures PastColon(key, s).Ok? && PastColon(key, s).rest != "" ==>
              Followed(PastColon(key, s), PastColon(key, s + t), t)
  {
    SkipSpaceExtends(s, t);
    var colon := SkipSpace(s);
    if colon != "" {
      AfterColonExtends(colon, t);
    }
  }

  lemma AfterColonExtends(colon: string, t: string)
    requires colon != ""
    ensures (colon + t)[0] == colon[0]
    ensures SkipSpace(colon[1..]) != "" ==> SkipSpace((colon + t)[1..]) == SkipSpace(colon[1..]) + t
    ensures SkipSpace(colon[1..]) == "" ==> SkipSpace((colon + t)[1..]) == SkipSpace(t)
  {
    TakeDrop(colon, t, 1);
    SkipSpaceExtends(colon[1..], t);
  }

  /** The law for a whole value. */
  lemma {:induction false} ValueAgrees(s: string, t: string)
    ensures Agrees(Value(s), Value(s + t), t)
    decreases |s|, 0
  {
    if s == "" {
      assert s + t == t;
    } else if s[0] == '"' {
      TakeDrop(s, t, 1);
      CharactersAgree(s, s[1..], t);
    } else if s[0] == '{' || s[0] == '[' {
      TakeDrop(s, t, 1);
      SkipSpaceExtends(s[1..], t);
      var r := SkipSpace(s[1..]);
      if r != "" {
        TakeDrop(r, t, 1);
        MembersAgree(r, t, map[]);
        ItemsAgree(r, t, []);
      }
    } else {
      LiteralAgrees(s, t);
    }
  }

  lemma {:induction false} MembersAgree(s: string, t: string, done: map<seq<nat>, Json>)
    ensures Agrees(Members(s, done), Members(s + t, done), t)
    decreases |s|, 1
  {
    KeyAgrees(s, t);
    var k := Key(s);
    if k.Ok? && k.rest != "" {
      ValueAgrees(k.rest, t);
      var v := Value(k.rest);
      if v.Ok? && NumberTail(v.rest) {
        CutNumberIsMissing(v.rest, '}');
      } else if v.Ok? {
        SeparateExtends(v.rest, '}', t);
        var next := Separate(v.rest, '}');
        if next.Comma? && next.rest != "" {
          MembersAgree(next.rest, t, done[k.value := v.value]);
        }
      }
    }
  }

  lemma {:induction false} ItemsAgree(s: string, t: string, done: seq<Json>)
    ensures Agrees(Items(s, done), Items(s + t, done), t)
    decreases |s|, 1
  {
    if s != "" {
      ValueAgrees(s, t);
      var v := Value(s);
      if v.Ok? && NumberTail(v.rest) {
        CutNumberIsMissing(v.rest, ']');
      } else if v.Ok? {
        SeparateExtends(v.rest, ']', t);
        var next := Separate(v.rest, ']');
        if next.Comma? && next.rest != "" {
          ItemsAgree(next.rest, t, done + [v.value]);
        }
      }
    }
  }

  // ----- what the reader uses

  /** The position after a value is a position in the same text. */
  lemma RestIsSuffix(s: string)
    requires Value(s).Ok?
    ensures Value(s).rest == s[|s| - |Value(s).rest|..]
  {
    var k := |s| - |Value(s).rest|;
    assert s == s[..k] + s[k..];
    ValueAgrees(s[..k], s[k..]);
  }

  /** A failure called definite has no valid continuation, and is reported at the same place
      whatever follows. */
  lemma DefiniteErrorStays(s: string, t: string)
    requires Value(s).Bad? && !MayBeIncomplete(Value(s))
    ensures Value(s + t) == Bad(false, Value(s).tail + t)
  {
    ValueAgrees(s, t);
  }

  /** Every failure on a proper prefix of a text that decodes is called incomplete. */
  lemma CutValueMayBeIncomplete(s: string, t: string)
    requires Value(s).Bad? && Value(s + t).Ok?
    ensures MayBeIncomplete(Value(s))
  {
    ValueAgrees(s, t);
  }

  /** A value that is not followed by a number's tail is final. */
  lemma FinishedValueStays(s: string, t: string)
    requires Value(s).Ok? && !NumberTail(Value(s).rest)
    ensures Value(s + t) == Ok(Value(s).value, Value(s).rest + t)
  {
    ValueAgrees(s, t);
  }

  /** A value that ends inside the text at hand is decoded from it. */
  lemma ValueInsideIsFound(s: string, t: string)
    requires Value(s + t).Ok? && |Value(s + t).rest| >= |t|
    ensures Value(s).Ok? && Value(s + t) == Ok(Value(s).value, Value(s).rest + t)
  {
    ValueAgrees(s, t);
  }
}
