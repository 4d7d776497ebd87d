/**
 The streaming reader of a top-level JSON array, `_JsonArrayReader`.

 `ReadWhole` is the plain specification: read the whole text at once. The class reads the same
 text from chunks, and its `Elements` ends with the same elements and the same verdict, whatever
 the cuts, unless one element outgrew the limit.
 */
module ArrayReading {
  import opened Basics
  import opened Chunks
  import opened JsonDecoder
  import opened JsonDecoderLaws
  import J = JsonRoundTrip
  import JsonAccepted
  import T = JsonText

  datatype Verdict = Accepted | NotAnArray | Malformed | TooLong

  /** The elements handed out, and how the reading ended. */
  datatype Outcome = Outcome(elements: seq<Json>, verdict: Verdict)

  function After(done: seq<Json>, o: Outcome): Outcome {
    Outcome(done + o.elements, o.verdict)
  }

  // ----- the specification

  function AtEnd(s: string): Verdict {
    if SkipSpace(s) == "" then Accepted else Malformed
  }

  function ReadElements(s: string): Outcome
    decreases |s|
  {
    match Value(s)
    case Bad(_, _) => Outcome([], Malformed)
    case Ok(v, rest) =>
      match Separate(rest, ']')
      case Closed(end) => Outcome([v], AtEnd(end))
      case Missing(_) => Outcome([v], Malformed)
      case Comma(next) =>
        if next != "" && next[0] == ']' then Outcome([v], Malformed)
        else After([v], ReadElements(next))
  }

  function ReadOther(s: string): Outcome {
    match Value(s)
    case Bad(_, _) => Outcome([], Malformed)
    case Ok(_, rest) => Outcome([], if SkipSpace(rest) == "" then NotAnArray else Malformed)
  }

  function ReadWhole(text: string): Outcome {
    var s := SkipSpace(text);
    if s == "" || s[0] != '[' then ReadOther(s)
    else
      var r := SkipSpace(s[1..]);
      if r != "" && r[0] == ']' then Outcome([], AtEnd(r[1..])) else ReadElements(r)
  }

  /** Whether another element follows the one at the start of `s`. */
  predicate MoreElements(s: string) {
    Value(s).Ok? &&
    var next := Separate(Value(s).rest, ']');
    next.Comma? && !(next.rest != "" && next.rest[0] == ']')
  }

  function LastVerdict(s: string): Verdict
    requires Value(s).Ok?
  {
    var next := Separate(Value(s).rest, ']');
    if next.Closed? then AtEnd(next.rest) else Malformed
  }

  lemma ReadOneMore(done: seq<Json>, s: string)
    requires MoreElements(s)
    ensures After(done, ReadElements(s))
         == After(done + [Value(s).value], ReadElements(Separate(Value(s).rest, ']').rest))
  {
    ReadUnfolds(s);
    Associative(done, [Value(s).value], ReadElements(Separate(Value(s).rest, ']').rest).elements);
  }

  lemma ReadUnfolds(s: string)
    requires MoreElements(s)
    ensures ReadElements(s) == After([Value(s).value], ReadElements(Separate(Value(s).rest, ']').rest))
  {
  }

  lemma ReadLast(done: seq<Json>, s: string)
    requires Value(s).Ok? && !MoreElements(s)
    ensures After(done, ReadElements(s)) == Outcome(done + [Value(s).value], LastVerdict(s))
  {
  }

  lemma {:induction false} ElementsAreItems(s: string, done: seq<Json>)
    ensures ReadElements(s).verdict.Accepted? <==> Items(s, done).Ok? && SkipSpace(Items(s, done).rest) == ""
    ensures ReadElements(s).verdict.Accepted? ==> Items(s, done).value == Array(done + ReadElements(s).elements)
    decreases |s|
  {
    if MoreElements(s) {
      var v, next := Value(s).value, Separate(Value(s).rest, ']').rest;
      ElementsAreItems(next, done + [v]);
      ReadUnfolds(s);
      Associative(done, [v], ReadElements(next).elements);
    } else if Value(s).Ok? && Separate(Value(s).rest, ']').Comma? {
      assert Value(Separate(Value(s).rest, ']').rest).Bad?;
    }
  }

  /** Reading the array element by element accepts exactly the documents `json.loads` gives a list
      for, and yields the items of that list. */
  lemma ReadWholeIsLoads(text: string)
    ensures ReadWhole(text).verdict.Accepted? <==> Loads(text).Ok? && Loads(text).value.Array?
    ensures ReadWhole(text).verdict.Accepted? ==> Loads(text).value == Array(ReadWhole(text).elements)
    ensures ReadWhole(text).verdict.NotAnArray? <==> Loads(text).Ok? && !Loads(text).value.Array?
  {
    var s := SkipSpace(text);
    if s != "" && s[0] == '[' {
      var r := SkipSpace(s[1..]);
      ElementsAreItems(r, []);
      ItemsGiveArray(r, []);
    } else if s != "" {
      OnlyBracketsGiveArrays(s);
    }
  }

  lemma {:induction false} ItemsGiveArray(s: string, done: seq<Json>)
    ensures Items(s, done).Ok? ==> Items(s, done).value.Array?
    ensures !ReadElements(s).verdict.NotAnArray?
    decreases |s|
  {
    if Value(s).Ok? && Separate(Value(s).rest, ']').Comma? {
      ItemsGiveArray(Separate(Value(s).rest, ']').rest, done + [Value(s).value]);
    }
  }

  lemma {:induction false} OnlyBracketsGiveArrays(s: string)
    requires s != "" && s[0] != '['
    ensures Value(s).Ok? ==> !Value(s).value.Array?
  {
    if s[0] == '{' {
      MembersGiveObject(SkipSpace(s[1..]), map[]);
    }
  }

  lemma {:induction false} MembersGiveObject(s: string, done: map<seq<nat>, Json>)
    ensures Members(s, done).Ok? ==> Members(s, done).value.Object?
    decreases |s|
  {
    var k := Key(s);
    if k.Ok? && Value(k.rest).Ok? {
      var next := Separate(Value(k.rest).rest, '}');
      if next.Comma? {
        MembersGiveObject(next.rest, done[k.value := Value(k.rest).value]);
      }
    }
  }

  // ----- elements within the limit

  ghost predicate ElementsFit(s: string, limit: nat)
    decreases |s|
  {
    match Value(s)
    case Bad(_, _) => true
    case Ok(_, rest) =>
      && |s| - |rest| <= limit
      && var next := Separate(rest, ']');
         next.Comma? ==> ElementsFit(next.rest, limit)
  }

  /** Every element of the array spans at most `limit` characters. */
  ghost predicate ArrayFits(text: string, limit: nat) {
    var s := SkipSpace(text);
    && s != "" && s[0] == '['
    && ElementsFit(SkipSpace(s[1..]), limit)
  }

  /** The reading stopped at the limit: what it had yielded is right, and the document is not an
      acceptable array of elements within the limit. */
  ghost predicate StoppedByLimit(text: string, o: Outcome, limit: nat) {
    && o.elements <= ReadWhole(text).elements
    && |text| > limit
    && !(ReadWhole(text).verdict.Accepted? && ArrayFits(text, limit))
  }

  // ----- what the text says

  /** The text is that of an array with these items and nothing but space around it. */
  ghost predicate IsArrayOf(text: string, items: seq<T.Item>) {
    exists before, space, after :: JsonAccepted.IsTextOf(text, before, T.Arr(space, items), after)
  }

  /** Every item is written in at most `limit` characters. */
  predicate ItemsWithin(items: seq<T.Item>, limit: nat) {
    forall i :: 0 <= i < |items| ==> |T.Show(items[i].value)| <= limit
  }

  /** A text is accepted exactly when it is that of an array, and its elements are what the items
      mean. */
  lemma AcceptedExactlyWhen(text: string, elements: seq<Json>)
    ensures ReadWhole(text) == Outcome(elements, Accepted) <==>
              exists items :: IsArrayOf(text, items) && T.GoodItems(items) && T.Meanings(items) == elements
  {
    ReadWholeIsLoads(text);
    JsonAccepted.LoadsExactlyWhen(text, Array(elements));
    if ReadWhole(text) == Outcome(elements, Accepted) {
      var before, d, after :| JsonAccepted.IsTextOf(text, before, d, after) && T.Meaning(d) == Array(elements);
      assert d == T.Arr(d.space, d.items);
      assert IsArrayOf(text, d.items) && T.Meanings(d.items) == elements;
    }
    forall items | IsArrayOf(text, items) && T.GoodItems(items) && T.Meanings(items) == elements
      ensures ReadWhole(text) == Outcome(elements, Accepted)
    {
      ArrayIsRead(text, items);
    }
  }

  lemma ArrayIsRead(text: string, items: seq<T.Item>)
    requires IsArrayOf(text, items)
    ensures T.GoodItems(items) && ReadWhole(text) == Outcome(T.Meanings(items), Accepted)
  {
    var before, space, after :| JsonAccepted.IsTextOf(text, before, T.Arr(space, items), after);
    JsonAccepted.DocumentIsLoaded(text, before, T.Arr(space, items), after);
    ReadWholeIsLoads(text);
  }

  lemma {:induction false} ItemsWithinFit(items: seq<T.Item>, t: string, limit: nat)
    requires items != [] && T.GoodItems(items) && ItemsWithin(items, limit)
    ensures ElementsFit(J.ItemsRest(items, t), limit)
    decreases |items|
  {
    var item, next := items[0], J.AfterItem(items, t);
    assert T.GoodItem(item) && T.GoodItems(items[1..]);
    J.SpaceEndsANumber(item.after, next);
    J.ValueShown(item.value, item.after + next);
    J.SeparatorRead(item.after, next, ']');
    assert |T.Show(items[0].value)| <= limit;
    if |items| > 1 {
      var rest := items[1..];
      assert T.GoodItem(rest[0]);
      assert next[1..] == rest[0].before + J.ItemsRest(rest, t);
      J.ShowStarts(rest[0].value);
      J.SpaceSkippedTo(rest[0].before, J.ItemsRest(rest, t));
      assert forall i :: 0 <= i < |rest| ==> rest[i] == items[i + 1];
      ItemsWithinFit(rest, t, limit);
    }
  }

  lemma ArrayWithinFits(text: string, items: seq<T.Item>, limit: nat)
    requires IsArrayOf(text, items) && ItemsWithin(items, limit)
    ensures ArrayFits(text, limit)
  {
    var before, space, after :| JsonAccepted.IsTextOf(text, before, T.Arr(space, items), after);
    assert T.Good(T.Arr(space, items));
    J.ShowStarts(T.Arr(space, items));
    J.SpaceSkippedTo(before, T.Show(T.Arr(space, items)) + after);
    if items == [] {
      J.EmptyArrayStarts(space, after);
    } else {
      J.ArrayStarts(items, after);
      ItemsWithinFit(items, after, limit);
    }
  }

  /** Items with a comma after each, and then some text. */
  function ItemsThen(items: seq<T.Item>, tail: string): string {
    if items == [] then tail else T.ShowItem(items[0]) + ("," + ItemsThen(items[1..], tail))
  }

  /** Neither another element nor the end of the array. */
  predicate NothingReadable(tail: string) {
    var next := SkipSpace(tail);
    next == "" || next[0] == ']' || Value(next).Bad?
  }

  lemma ItemThenComma(item: T.Item, next: string)
    requires T.GoodItem(item)
    ensures var s := SkipSpace(T.ShowItem(item) + ("," + next));
            && s != "" && s[0] != ']'
            && Value(s) == Ok(T.Meaning(item.value), item.after + ("," + next))
            && Separate(item.after + ("," + next), ']') == Comma(SkipSpace(next))
  {
    var shown := T.Show(item.value);
    var t := item.after + ("," + next);
    J.Regroup(item.before, shown, item.after, "", "," + next);
    assert (item.before + shown + item.after) + "" == T.ShowItem(item) && "" + ("," + next) == "," + next;
    J.ShowStarts(item.value);
    J.SpaceSkippedTo(item.before, shown + t);
    J.SpaceEndsANumber(item.after, "," + next);
    J.ValueShown(item.value, t);
    J.SeparatorRead(item.after, "," + next, ']');
    assert ("," + next)[1..] == next;
  }

  lemma {:induction false} ItemsThenRead(items: seq<T.Item>, tail: string)
    requires items != [] && T.GoodItems(items)
    ensures SkipSpace(ItemsThen(items, tail)) != "" && SkipSpace(ItemsThen(items, tail))[0] != ']'
    ensures T.Meanings(items) <= ReadElements(SkipSpace(ItemsThen(items, tail))).elements
    ensures NothingReadable(tail) ==>
              ReadElements(SkipSpace(ItemsThen(items, tail))) == Outcome(T.Meanings(items), Malformed)
  {
    assert T.GoodItem(items[0]);
    var s, rest := SkipSpace(ItemsThen(items, tail)), items[1..];
    ItemThenComma(items[0], ItemsThen(rest, tail));
    if rest == [] {
      assert T.Meanings(items) == [Value(s).value];
    } else {
      ItemsThenRead(rest, tail);
      ReadUnfolds(s);
    }
  }

  /** Neither the end of an array nor a further item, nor more of a number. */
  predicate NeitherNor(junk: string) {
    var next := SkipSpace(junk);
    J.NoNumberGoesOn(junk) && (next == "" || (next[0] != ',' && next[0] != ']'))
  }

  lemma {:induction false} LastItemRead(items: seq<T.Item>, last: T.Doc, junk: string)
    requires T.GoodItems(items) && T.Good(last) && NeitherNor(junk)
    ensures var s := SkipSpace(ItemsThen(items, T.Show(last) + junk));
      && s != "" && s[0] != ']' && ReadElements(s) == Outcome(T.Meanings(items) + [T.Meaning(last)], Malformed)
  {
    var tail := T.Show(last) + junk;
    if items == [] {
      J.ShowStarts(last);
      J.SpaceSkippedTo("", tail);
      assert "" + tail == tail;
      J.ValueShown(last, junk);
      assert [] + [T.Meaning(last)] == [T.Meaning(last)];
    } else {
      assert T.GoodItem(items[0]);
      var s, rest := SkipSpace(ItemsThen(items, tail)), items[1..];
      ItemThenComma(items[0], ItemsThen(rest, tail));
      LastItemRead(rest, last, junk);
      ReadUnfolds(s);
      Associative([Value(s).value], T.Meanings(rest), [T.Meaning(last)]);
    }
  }

  /** An item is handed out also when neither a comma nor the bracket follows it. */
  lemma LastElementBeforeAnError(before: string, items: seq<T.Item>, last: T.Doc, junk: string)
    requires T.Blank(before) && T.GoodItems(items) && T.Good(last) && NeitherNor(junk)
    ensures ReadWhole(before + ("[" + ItemsThen(items, T.Show(last) + junk)))
         == Outcome(T.Meanings(items) + [T.Meaning(last)], Malformed)
  {
    var inside := ItemsThen(items, T.Show(last) + junk);
    J.SpaceSkippedTo(before, "[" + inside);
    assert ("[" + inside)[1..] == inside;
    LastItemRead(items, last, junk);
  }

  /** What stands before an error is handed out. */
  lemma ElementsBeforeAnError(before: string, items: seq<T.Item>, tail: string)
    requires T.Blank(before) && items != [] && T.GoodItems(items)
    ensures T.Meanings(items) <= ReadWhole(before + ("[" + ItemsThen(items, tail))).elements
    ensures NothingReadable(tail) ==>
              ReadWhole(before + ("[" + ItemsThen(items, tail))) == Outcome(T.Meanings(items), Malformed)
  {
    var s := "[" + ItemsThen(items, tail);
    J.SpaceSkippedTo(before, s);
    assert s[1..] == ItemsThen(items, tail);
    ItemsThenRead(items, tail);
  }

  // ----- the reader

  datatype Element = Got(value: Json) | Wrong | Over

  datatype Mark = Last | Next | Neither

  /** After `grows` growths, a text that can still grow has doubled that often. */
  ghost predicate Doubled(grows: nat, size: nat, exhausted: bool, limit: nat) {
    && (grows >= 1 && !exhausted ==> size > limit || size >= Pow2(grows - 1))
    && FewGrowths(grows, limit)
  }

  ghost predicate FewGrowths(grows: nat, limit: nat) {
    grows >= 2 ==> Pow2(grows - 2) <= limit
  }

  function Doubling(n: nat): nat {
    if 2 * n > n + 1 then 2 * n else n + 1
  }

  lemma DoubledStep(grows: nat, before: nat, after: nat, exhausted: bool, limit: nat, grown: bool)
    requires Doubled(grows, before, false, limit) && before <= after
    requires grown ==> before <= limit
    requires grown && !exhausted ==> after > limit || after >= Doubling(before)
    ensures Doubled(if grown then grows + 1 else grows, after, exhausted, limit)
  {
  }

  class ArrayReader {
    var chunks: seq<string>
    var buffer: string
    var pos: nat
    var exhausted: bool
    const limit: nat

    ghost predicate Valid()
      reads this
    {
      pos <= |buffer| && (exhausted ==> chunks == [])
    }

    /** The buffered text from the position on. */
    ghost function Pending(): string
      reads this
      requires Valid()
    {
      buffer[pos..]
    }

    /** All text not consumed yet, read or not. */
    ghost function Unread(): string
      reads this
      requires Valid()
    {
      Pending() + Join(chunks)
    }

    constructor (chunks: seq<string>, limit: nat)
      ensures Valid() && Unread() == Join(chunks)
      ensures this.limit == limit && this.chunks == chunks && !exhausted
    {
      this.chunks, this.limit := chunks, limit;
      buffer, pos, exhausted := "", 0, false;
    }

    method NextChunk() returns (chunk: Option<string>)
      requires Valid()
      modifies this`chunks, this`exhausted
      ensures Valid()
      ensures chunk.None? ==> exhausted && old(chunks) == [] == chunks
      ensures chunk.Some? ==> old(chunks) == [chunk.value] + chunks && !exhausted && !old(exhausted)
    {
      if exhausted {
        return None;
      }
      if chunks == [] {
        exhausted := true;
        return None;
      }
      chunk := Some(chunks[0]);
      chunks := chunks[1..];
    }

    method More() returns (more: bool)
      requires Valid()
      modifies this
      ensures Valid() && Unread() == old(Unread())
      ensures !more ==> exhausted && chunks == [] && Pending() == old(Pending())
      ensures more ==> |chunks| < |old(chunks)| && !exhausted
      ensures more ==> !old(exhausted)
      ensures |Pending()| >= |old(Pending())|
    {
      var chunk := NextChunk();
      if chunk.None? {
        return false;
      }
      JoinUnfold(Pending(), old(chunks));
      buffer := buffer[pos..] + chunk.value;
      pos := 0;
      more := true;
    }

    /** More text for an element that is cut off, taken from as many chunks as doubling it needs. */
    method Grow() returns (grown: bool)
      requires Valid() && |Pending()| <= limit
      modifies this
      ensures Valid() && Unread() == old(Unread())
      ensures grown ==> !old(exhausted) && |Pending()| >= |old(Pending())|
      ensures !grown ==> exhausted && chunks == [] == old(chunks) && Pending() == old(Pending())
      ensures grown ==> |chunks| < |old(chunks)|
      ensures !exhausted ==> |Pending()| > limit || |Pending()| >= Doubling(|old(Pending())|)
      // the bound on what is held
      ensures |Pending()| <= limit + Longest(old(chunks))
    {
      var pending := buffer[pos..];
      var size := |pending|;
      var target := if Doubling(size) < limit + 1 then Doubling(size) else limit + 1;
      var parts, count := Gather(pending, target);
      if count == 0 {
        return false;
      }
      buffer := parts;
      pos := 0;
      grown := true;
    }

    /** Chunks joined to a text until it is `target` long, or there are no more. */
    method Gather(pending: string, target: nat) returns (parts: string, count: nat)
      requires Valid() && |pending| <= limit && target <= limit + 1
      modifies this`chunks, this`exhausted
      ensures Valid() && parts + Join(chunks) == pending + Join(old(chunks))
      ensures count <= |old(chunks)| && chunks == old(chunks)[count..] && (count == 0 ==> parts == pending)
      ensures |pending| <= |parts| <= limit + Longest(old(chunks))
      ensures |parts| >= target || exhausted
      ensures count > 0 ==> !old(exhausted)
    {
      parts, count := pending, 0;
      while |parts| < target && !exhausted
        invariant Valid()
        invariant parts + Join(chunks) == pending + Join(old(chunks))
        invariant count <= |old(chunks)| && chunks == old(chunks)[count..]
        invariant count == 0 ==> parts == pending
        invariant |pending| <= |parts| <= limit + Longest(old(chunks))
        invariant count > 0 ==> !old(exhausted)
        decreases |chunks|, !exhausted
      {
        var before := chunks;
        var chunk := NextChunk();
        if chunk.Some? {
          JoinUnfold(parts, before);
          assert chunk.value in old(chunks);
          parts := parts + chunk.value;
          count := count + 1;
        }
      }
    }

    /** Moves to what follows white space, and shows its first character. */
    method NextCharacter() returns (c: Option<char>)
      requires Valid()
      modifies this
      ensures Valid() && Unread() == SkipSpace(old(Unread()))
      ensures c.None? <==> Unread() == ""
      ensures c.Some? ==> pos < |buffer| && buffer[pos] == c.value == Unread()[0]
      ensures |chunks| <= |old(chunks)|
    {
      var more := true;
      while more
        invariant Valid() && SkipSpace(Unread()) == SkipSpace(old(Unread()))
        invariant !more ==> Unread() == ""
        invariant |chunks| <= |old(chunks)|
        decreases more, |chunks|
      {
        ghost var left := chunks;
        while pos < |buffer| && IsSpace(buffer[pos])
          invariant Valid() && SkipSpace(Unread()) == SkipSpace(old(Unread()))
          invariant chunks == left
        {
          assert Unread()[0] == buffer[pos] && Unread()[1..] == buffer[pos + 1..] + Join(chunks);
          pos := pos + 1;
        }
        if pos < |buffer| {
          assert Unread()[0] == buffer[pos];
          return Some(buffer[pos]);
        }
        more := More();
      }
      c := None;
    }

    method Advance()
      requires Valid() && pos < |buffer|
      modifies this`pos
      ensures Valid() && Unread() == old(Unread())[1..]
    {
      pos := pos + 1;
    }

    /** Nothing that follows can make the text at hand decode. */
    ghost predicate Definite()
      reads this
      requires Valid()
    {
      Value(Pending()).Bad? && !MayBeIncomplete(Value(Pending()))
    }

    /** A failed attempt: wrong, over the limit, or none when the text was grown. */
    method Failed() returns (r: Option<Element>)
      requires Valid() && Value(Pending()).Bad?
      modifies this
      ensures Valid() && (r == None || r == Some(Wrong) || r == Some(Over))
      ensures r == None ==> Unread() == old(Unread()) && |chunks| < |old(chunks)| && !old(Definite())
      ensures r == None ==> !old(exhausted) && |old(Pending())| <= limit && |Pending()| >= |old(Pending())|
      ensures r == None && !exhausted ==> |Pending()| > limit || |Pending()| >= Doubling(|old(Pending())|)
      ensures r == Some(Wrong) ==> Value(old(Unread())).Bad? && (exhausted || Definite()) && chunks == old(chunks)
      ensures r == Some(Over) ==> !old(Definite()) && OverLimit(old(Unread()), limit) && chunks == old(chunks)
    {
      var doc := buffer[pos..];
      if exhausted || !MayBeIncomplete(Value(doc)) {
        if exhausted {
          assert doc + Join(chunks) == doc;
        } else {
          DefiniteErrorStays(doc, Join(chunks));
        }
        return Some(Wrong);
      }
      if |buffer| - pos > limit {
        LongTextIsOver(doc, Join(chunks), limit);
        return Some(Over);
      }
      var grown := Grow();
      if !grown {
        assert doc + Join(chunks) == doc;
        return Some(Wrong);
      }
      r := None;
    }

    /** One attempt at an element; none when there is more text to try again with. */
    method TryElement() returns (r: Option<Element>, grown: bool)
      requires Valid()
      modifies this
      ensures Valid()
      ensures r == None ==> Unread() == old(Unread()) && |chunks| < |old(chunks)| && !old(Definite())
      ensures r == None ==> !old(exhausted) && |Pending()| >= |old(Pending())|
      ensures r == None && grown ==> |old(Pending())| <= limit
      ensures r == None && grown && !exhausted ==> |Pending()| > limit || |Pending()| >= Doubling(|old(Pending())|)
      ensures r != None ==> |chunks| <= |old(chunks)|
      ensures r != None && r.value.Got? ==> Value(old(Unread())) == Ok(r.value.value, Unread()) && !old(Definite())
      ensures r == Some(Wrong) ==> Value(old(Unread())).Bad? && (exhausted || Definite()) && chunks == old(chunks)
      ensures r == Some(Over) ==> !old(Definite()) && OverLimit(old(Unread()), limit)
    {
      var doc := buffer[pos..];
      match Value(doc) {
        case Bad(unterminated, tail) =>
          r := Failed();
          grown := true;
        case Ok(value, rest) =>
          r := TakeDecoded(value, rest);
          grown := false;
      }
    }

    /** The text at hand decodes: the value, or none if it may be a number that goes on. */
    method TakeDecoded(value: Json, rest: string) returns (r: Option<Element>)
      requires Valid() && Value(Pending()) == Ok(value, rest)
      modifies this
      ensures Valid() && (r == None || r == Some(Got(value)))
      ensures r == None ==> Unread() == old(Unread()) && |chunks| < |old(chunks)|
      ensures r == None ==> !old(exhausted) && |Pending()| >= |old(Pending())|
      ensures r != None ==> |chunks| <= |old(chunks)| && Value(old(Unread())) == Ok(value, Unread())
    {
      var doc := buffer[pos..];
      if NumberTail(rest) {
        var more := More();
        if more {
          return None;
        }
      }
      ghost var later := Join(chunks);
      LastWordOnValue(doc, later);
      pos := |buffer| - |rest|;
      assert Pending() == rest && Unread() == rest + later;
      r := Some(Got(value));
    }

    /** One element. `grows` counts how often its text was grown because it was incomplete. */
    method NextElement() returns (r: Element, ghost grows: nat)
      requires Valid()
      modifies this
      ensures Valid() && |chunks| <= |old(chunks)|
      ensures r.Got? ==> Value(old(Unread())) == Ok(r.value, Unread())
      ensures r.Wrong? ==> Value(old(Unread())).Bad? && (exhausted || Definite())
      ensures r.Over? ==> OverLimit(old(Unread()), limit)
      // A definite error is refused without taking another chunk.
      ensures old(Definite()) ==> r.Wrong? && chunks == old(chunks)
      // The text at least doubles between attempts.
      ensures FewGrowths(grows, limit)
    {
      ghost var text := Unread();
      grows := 0;
      while true
        invariant Valid() && Unread() == text && |chunks| <= |old(chunks)|
        invariant old(Definite()) ==> Definite() && chunks == old(chunks)
        invariant Doubled(grows, |Pending()|, exhausted, limit) && FewGrowths(grows, limit)
        decreases |chunks|
      {
        ghost var before := |Pending()|;
        var attempt, grown := TryElement();
        if attempt.Some? {
          return attempt.value, grows;
        }
        DoubledStep(grows, before, |Pending()|, exhausted, limit, grown);
        grows := if grown then grows + 1 else grows;
      }
    }

    /** The whole document. The elements are the ones yielded before it ended, well or not. */
    method Elements() returns (o: Outcome)
      requires Valid()
      modifies this
      ensures !o.verdict.TooLong? ==> o == ReadWhole(old(Unread()))
      ensures o.verdict.TooLong? ==> StoppedByLimit(old(Unread()), o, limit)
    {
      ghost var text := Unread();
      var c := NextCharacter();
      if c != Some('[') {
        o := OtherDocument();
        return;
      }
      Advance();
      ghost var body := Unread();
      c := NextCharacter();
      if c == Some(']') {
        Advance();
        c := NextCharacter();
        return Outcome([], if c == None then Accepted else Malformed);
      }
      o := ArrayBody();
      assert ArrayFits(text, limit) ==> ElementsFit(SkipSpace(body), limit);
    }

    /** A document that is not an array is refused either way; whether it is well-formed decides
        how. */
    method OtherDocument() returns (o: Outcome)
      requires Valid()
      modifies this
      ensures !o.verdict.TooLong? ==> o == ReadOther(old(Unread()))
      ensures o.verdict.TooLong? ==> o.elements == [] && |old(Unread())| > limit
    {
      var r, _ := NextElement();
      match r
      case Wrong => return Outcome([], Malformed);
      case Over => return Outcome([], TooLong);
      case Got(_) =>
        var c := NextCharacter();
        return Outcome([], if c == None then NotAnArray else Malformed);
    }

    /** Consumes what separates an element from the next. */
    method PastSeparator() returns (mark: Mark)
      requires Valid()
      modifies this
      ensures Valid()
      ensures match mark
              case Last => Separate(old(Unread()), ']') == Closed(Unread())
              case Next => Separate(old(Unread()), ']') == Comma(SkipSpace(Unread()))
              case Neither => Separate(old(Unread()), ']').Missing?
    {
      var c := NextCharacter();
      if c.None? || (c.value != ']' && c.value != ',') {
        return Neither;
      }
      Advance();
      mark := if c.value == ']' then Last else Next;
    }

    /** From the first element to the end of the document. */
    method ArrayBody() returns (o: Outcome)
      requires Valid()
      modifies this
      ensures !o.verdict.TooLong? ==> o == ReadElements(old(Unread()))
      ensures o.verdict.TooLong? ==> BodyStopped(old(Unread()), o, limit)
    {
      ghost var text := Unread();
      var elements := [];
      while true
        invariant Valid() && |Unread()| <= |text|
        invariant ReadElements(text) == After(elements, ReadElements(Unread()))
        invariant ElementsFit(text, limit) ==> ElementsFit(Unread(), limit)
        decreases |Unread()|
      {
        ghost var here := Unread();
        var r, _ := NextElement();
        if r.Wrong? {
          return Outcome(elements, Malformed);
        }
        if r.Over? {
          return Outcome(elements, TooLong);
        }
        ghost var done := elements;
        elements := elements + [r.value];
        var mark := PastSeparator();
        if mark == Neither {
          ReadLast(done, here);
          return Outcome(elements, Malformed);
        }
        var c := NextCharacter();
        if mark == Last {
          ReadLast(done, here);
          return Outcome(elements, if c == None then Accepted else Malformed);
        }
        if c == Some(']') {
          ReadLast(done, here);
          return Outcome(elements, Malformed);
        }
        ReadOneMore(done, here);
      }
    }
  }

  ghost predicate BodyStopped(text: string, o: Outcome, limit: nat) {
    && o.elements <= ReadElements(text).elements
    && |text| > limit
    && !(ReadElements(text).verdict.Accepted? && ElementsFit(text, limit))
  }

  /** The text is longer than the limit, and so is its first value if it has one. */
  ghost predicate OverLimit(text: string, limit: nat) {
    && |text| > limit
    && (Value(text).Ok? ==> |text| - |Value(text).rest| > limit)
  }

  lemma LongTextIsOver(doc: string, more: string, limit: nat)
    requires Value(doc).Bad? && |doc| > limit
    ensures OverLimit(doc + more, limit)
  {
    ValueAgrees(doc, more);
  }

  lemma LastWordOnValue(doc: string, more: string)
    requires Value(doc).Ok? && (NumberTail(Value(doc).rest) ==> more == "")
    ensures Value(doc + more) == Ok(Value(doc).value, Value(doc).rest + more)
    ensures Value(doc).rest == doc[|doc| - |Value(doc).rest|..]
  {
    RestIsSuffix(doc);
    if more == "" {
      assert doc + more == doc;
    } else {
      FinishedValueStays(doc, more);
    }
  }

  /** Reading a document from chunks: the outcome depends on the text alone, not on the cuts. */
  method ReadChunks(chunks: seq<string>, limit: nat) returns (o: Outcome)
    ensures o == ReadWhole(Join(chunks)) || (o.verdict.TooLong? && StoppedByLimit(Join(chunks), o, limit))
    ensures |Join(chunks)| <= limit ==> o == ReadWhole(Join(chunks))
    ensures ReadWhole(Join(chunks)).verdict.Accepted? && ArrayFits(Join(chunks), limit)
        ==> o == ReadWhole(Join(chunks))
    // what the elements are
    ensures forall items | IsArrayOf(Join(chunks), items) && (|Join(chunks)| <= limit || ItemsWithin(items, limit)) ::
              T.GoodItems(items) && o == Outcome(T.Meanings(items), Accepted)
    ensures o.verdict.Accepted?
        ==> exists items :: IsArrayOf(Join(chunks), items) && T.GoodItems(items) && o.elements == T.Meanings(items)
  {
    var reader := new ArrayReader(chunks, limit);
    o := reader.Elements();
    AcceptedExactlyWhen(Join(chunks), o.elements);
    forall items | IsArrayOf(Join(chunks), items) && (|Join(chunks)| <= limit || ItemsWithin(items, limit))
      ensures T.GoodItems(items) && o == Outcome(T.Meanings(items), Accepted)
    {
      ArrayIsRead(Join(chunks), items);
      if ItemsWithin(items, limit) {
        ArrayWithinFits(Join(chunks), items, limit);
      }
    }
  }
}
