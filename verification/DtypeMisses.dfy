/**
 When the reader misses text: a type that could hold some is taken for one that could not. It takes a
 field name with a colon and, after it, the beginning of another type.
 */
module DtypeMisses {
  import opened Basics
  import opened PythonText
  import opened DtypeReader

  /** Whatever follows the first colon of the name opens no bracket. */
  predicate HarmlessName(f: Field) {
    ':' in f.name ==> '(' !in Following(f.name, ':')
  }

  /** No component of the type, at any depth, is read as something with less in it. */
  ghost predicate NothingHidden(t: Dtype) {
    match t
    case Leaf(_, _) => true
    case List(element) => element.Leaf? || (!HasOuterComma(Show(element)) && NothingHidden(element))
    case Array(element, _) =>
      element.Leaf? || (!HasOuterComma(Show(element)) && Depth(Show(element)) == 0 && NothingHidden(element))
    case Struct(fields) =>
      forall i :: 0 <= i < |fields| ==>
        && HarmlessName(fields[i]) && CleanName(fields[i], true)
        && Clean(fields[i].dtype, true) && NothingHidden(fields[i].dtype)
  }

  /** The reader answers, and says yes if text could be there. */
  ghost predicate Finds(text: string, t: Dtype) {
    CanHoldText(text).Some? && (HoldsText(t) ==> CanHoldText(text).value)
  }

  // ----- a base with a quote in it is no known type

  lemma {:induction false} BeforeKeeps(a: string, rest: string, c: char)
    requires c !in a
    ensures Before(a + rest, c) == a + Before(rest, c)
  {
    if a == "" {
      assert a + rest == rest;
    } else {
      assert (a + rest)[1..] == a[1..] + rest;
      BeforeKeeps(a[1..], rest, c);
    }
  }

  lemma KnownTypesAreWords(name: string)
    requires name in TEXT || name in NUMERIC || name in OTHER || name == "List" || name == "Array" || name == "Struct"
    ensures forall i :: 0 <= i < |name| ==> !IsQuote(name[i])
  {
  }

  lemma UnknownMightHoldText(text: string, quote: char)
    requires IsQuote(quote) && quote in Base(text)
    ensures CanHoldText(text) == Some(true)
  {
    var base := Base(text);
    var i :| 0 <= i < |base| && base[i] == quote;
    if base in TEXT || base in NUMERIC || base in OTHER || base == "List" || base == "Array" || base == "Struct" {
      KnownTypesAreWords(base);
    }
  }

  // ----- a field with a colon in its name

  lemma ReadKeepsTheQuote(f: Field) returns (lost: string)
    requires IsQuote(f.quote) && Printable(f.dtype) && ':' in f.name
    ensures Read(f) == lost + ([f.quote] + ": " + Show(f.dtype))
    ensures forall i :: 0 <= i < |lost| ==> lost[i] in Following(f.name, ':')
  {
    var before, rest := [f.quote] + f.name, [f.quote] + ": " + Show(f.dtype);
    ShowIsTidy(f.dtype);
    assert before[1..] == f.name && ShowField(f) == before + rest;
    FollowingKeeps(before, rest, ':');
    assert Following(before, ':') == Following(f.name, ':');
    assert rest[0] == f.quote && rest[|rest| - 1] == Show(f.dtype)[|Show(f.dtype)| - 1];
    var from := StripBefore(Following(f.name, ':'), rest);
    lost := Following(f.name, ':')[from..];
  }

  lemma ColonIsUnknown(f: Field)
    requires IsQuote(f.quote) && Printable(f.dtype) && ':' in f.name && HarmlessName(f)
    ensures CanHoldText(Read(f)) == Some(true)
  {
    var lost := ReadKeepsTheQuote(f);
    var plain, rest := lost + [f.quote], ": " + Show(f.dtype);
    assert Read(f) == plain + rest;
    assert plain[|lost|] == f.quote;
    BeforeKeeps(plain, rest, '(');
    assert Base(Read(f))[|lost|] == f.quote;
    UnknownMightHoldText(Read(f), f.quote);
  }

  lemma FieldIsFound(f: Field)
    requires IsQuote(f.quote) && Printable(f.dtype) && HarmlessName(f) && Finds(Show(f.dtype), f.dtype)
    ensures Finds(Read(f), f.dtype)
  {
    if ':' in f.name {
      ColonIsUnknown(f);
    } else {
      ReadsTheTypeExactlyWhen(f);
    }
  }

  lemma {:induction false} AnyFinds(fields: seq<Field>, bound: nat)
    requires forall i :: 0 <= i < |Reads(fields)| ==> |Reads(fields)[i]| < bound
    requires forall i :: 0 <= i < |fields| ==> Finds(Read(fields[i]), fields[i].dtype)
    ensures var answer := AnyCanHoldText(Reads(fields), bound);
      answer.Some? && ((exists i :: 0 <= i < |fields| && HoldsText(fields[i].dtype)) ==> answer.value)
  {
    if fields != [] {
      var rest := fields[1..];
      assert Reads(fields)[0] == Read(fields[0]) && Reads(fields)[1..] == Reads(rest);
      assert Finds(Read(fields[0]), fields[0].dtype);
      assert forall i :: 0 <= i < |rest| ==> rest[i] == fields[i + 1];
      AnyFinds(rest, bound);
      if i :| 0 < i < |fields| && HoldsText(fields[i].dtype) {
        assert HoldsText(rest[i - 1].dtype);
      }
    }
  }

  lemma StructIsFound(fields: seq<Field>)
    requires Printable(Struct(fields)) && Clean(Struct(fields), true)
    requires forall i :: 0 <= i < |fields| ==> HarmlessName(fields[i]) && Finds(Show(fields[i].dtype), fields[i].dtype)
    ensures Finds(Show(Struct(fields)), Struct(fields))
  {
    forall i | 0 <= i < |fields| ensures Finds(Read(fields[i]), fields[i].dtype) {
      FieldIsFound(fields[i]);
    }
    FieldsAreAsked(fields);
    AnyFinds(fields, |Show(Struct(fields))|);
  }

  /** A struct is asked by what is read of its fields. */
  lemma FieldsAreAsked(fields: seq<Field>)
    requires Printable(Struct(fields)) && Clean(Struct(fields), true)
    ensures forall i :: 0 <= i < |Reads(fields)| ==> |Reads(fields)[i]| < |Show(Struct(fields))|
    ensures CanHoldText(Show(Struct(fields))) == AnyCanHoldText(Reads(fields), |Show(Struct(fields))|)
  {
    BaseOfShow(Struct(fields));
    FieldsAreRead(fields);
    FieldsShorten(Show(Struct(fields)));
  }

  /** Text is not missed: where names hide nothing, a type that could hold text is never taken for one
      that could not, and the reader always answers. */
  lemma {:induction false} NoTextIsMissed(t: Dtype)
    requires Printable(t) && NothingHidden(t)
    ensures CanHoldText(Show(t)).Some?
    ensures HoldsText(t) ==> CanHoldText(Show(t)) == Some(true)
  {
    match t
    case Leaf(_, _) =>
      BaseOfShow(t);
    case List(element) =>
      if element.Leaf? {
        LeafIsAsked(t);
      } else {
        NoTextIsMissed(element);
        InnerOfListExactlyWhen(element);
        ElementIsAsked(t);
      }
    case Array(element, shape) =>
      if element.Leaf? {
        LeafIsAsked(t);
      } else {
        NoTextIsMissed(element);
        InnerOfArrayExactlyWhen(element, shape);
        ElementIsAsked(t);
      }
    case Struct(fields) =>
      forall i | 0 <= i < |fields| ensures Finds(Show(fields[i].dtype), fields[i].dtype) {
        NoTextIsMissed(fields[i].dtype);
      }
      StructIsFound(fields);
  }

  // ----- a name that hides its text

  /** A struct with one text field, named so that the reader takes it for a date. */
  const HIDING: Field := Field('\'', "x:Date(", Leaf("String", None))

  lemma HidingIsRead()
    ensures Read(HIDING) == "Date(': String"
  {
    var rest := "Date(': String";
    HidingIsShown();
    FollowingFirst("'x", rest, ':');
    StripsNothing(rest);
  }

  lemma StripsNothing(s: string)
    requires Tidy(s)
    ensures Strip(s) == s
  {
    var from := StripBefore("", s);
    assert "" + s == s;
  }

  lemma HidingIsShown()
    ensures ShowField(HIDING) == "'x" + [':'] + "Date(': String"
  {
    assert Show(HIDING.dtype) == "String";
  }

  lemma HidingIsADate()
    ensures CanHoldText("Date(': String") == Some(false)
  {
    BeforeBracket("Date", "(': String");
    assert "Date" + "(': String" == "Date(': String";
  }

  /** Such a name makes the reader miss text. */
  lemma TextIsMissed()
    ensures HoldsText(Struct([HIDING])) && CanHoldText(Show(Struct([HIDING]))) == Some(false)
  {
    var fields := [HIDING];
    assert HoldsText(fields[0].dtype);
    FieldsAreAsked(fields);
    OneRead(HIDING);
    HidingIsRead();
    HidingIsADate();
    OneIsAsked(Read(HIDING), |Show(Struct(fields))|);
  }

  lemma OneRead(f: Field)
    ensures Reads([f]) == [Read(f)]
  {
    assert [f][1..] == [];
  }

  lemma OneIsAsked(text: string, bound: nat)
    requires |text| < bound && CanHoldText(text) == Some(false)
    ensures AnyCanHoldText([text], bound) == Some(false)
  {
    assert [text][1..] == [];
  }
}
