/**
 Just enough of a relational engine: cells that may be null, rows, three-valued filters, and
 `ORDER BY` with nulls last in either direction.

 A cell's value stands for its place in the order of its column's type; equal values are equal
 there. Numbers are themselves.
 */
module Relational {
  datatype Cell = Null | Value(v: real)

  type Row = map<string, Cell>

  function Get(row: Row, column: string): Cell {
    if column in row then row[column] else Null
  }

  function Project(row: Row, columns: seq<string>): seq<Cell> {
    seq(|columns|, i requires 0 <= i < |columns| => Get(row, columns[i]))
  }

  // ----- filters

  datatype Op = Eq | Ne | Lt | Lte | Gt | Gte

  datatype Filter =
    | Compare(column: string, op: Op, literal: real)
    | In(column: string, literals: seq<real>)
    | IsNull(column: string)
    | IsNotNull(column: string)

  datatype Truth = True | False | Unknown

  function Truthful(b: bool): Truth {
    if b then True else False
  }

  function Holds(op: Op, x: real, y: real): bool {
    match op
    case Eq => x == y
    case Ne => x != y
    case Lt => x < y
    case Lte => x <= y
    case Gt => x > y
    case Gte => x >= y
  }

  /** A condition's truth value in SQL: unknown when it compares a null. */
  function Condition(f: Filter, row: Row): Truth {
    var cell := Get(row, f.column);
    match f
    case IsNull(_) => Truthful(cell.Null?)
    case IsNotNull(_) => Truthful(!cell.Null?)
    case Compare(_, op, literal) => if cell.Null? then Unknown else Truthful(Holds(op, cell.v, literal))
    case In(_, literals) => if cell.Null? then Unknown else Truthful(cell.v in literals)
  }

  function And(a: Truth, b: Truth): Truth {
    if a == False || b == False then False
    else if a == Unknown || b == Unknown then Unknown
    else True
  }

  /** The conditions joined by AND; no condition is true. */
  function Conjunction(filters: seq<Filter>, row: Row): Truth {
    if filters == [] then True else And(Condition(filters[0], row), Conjunction(filters[1..], row))
  }

  /** What a filter means for a row, in two values. */
  predicate Satisfies(f: Filter, row: Row) {
    var cell := Get(row, f.column);
    match f
    case IsNull(_) => cell == Null
    case IsNotNull(_) => cell != Null
    case Compare(_, op, literal) => cell.Value? && Holds(op, cell.v, literal)
    case In(_, literals) => cell.Value? && cell.v in literals
  }

  predicate Passes(filters: seq<Filter>, row: Row) {
    Conjunction(filters, row) == True
  }

  /** A row passes when every filter is satisfied: a null satisfies no comparison, so a comparison
      and its opposite both drop it. */
  lemma {:induction false} PassesMeansAll(filters: seq<Filter>, row: Row)
    ensures Passes(filters, row) <==> forall f :: f in filters ==> Satisfies(f, row)
  {
    if filters != [] {
      PassesMeansAll(filters[1..], row);
      assert Condition(filters[0], row) == True <==> Satisfies(filters[0], row);
      assert forall f :: f in filters <==> f == filters[0] || f in filters[1..];
    }
  }

  // ----- order

  datatype SortKey = SortKey(column: string, descending: bool)

  datatype Sign = Less | Same | Greater

  /** Nulls last, whatever the direction. */
  function CompareCells(descending: bool, x: Cell, y: Cell): Sign {
    match (x, y)
    case (Null, Null) => Same
    case (Null, Value(_)) => Greater
    case (Value(_), Null) => Less
    case (Value(a), Value(b)) =>
      if a == b then Same
      else if (a < b) != descending then Less
      else Greater
  }

  function CompareRows(keys: seq<SortKey>, x: Row, y: Row): Sign {
    if keys == [] then Same
    else
      var first := CompareCells(keys[0].descending, Get(x, keys[0].column), Get(y, keys[0].column));
      if first == Same then CompareRows(keys[1..], x, y) else first
  }

  function Opposite(s: Sign): Sign {
    match s
    case Less => Greater
    case Same => Same
    case Greater => Less
  }

  lemma {:induction false} CompareReversed(keys: seq<SortKey>, x: Row, y: Row)
    ensures CompareRows(keys, y, x) == Opposite(CompareRows(keys, x, y))
  {
    if keys != [] {
      CompareReversed(keys[1..], x, y);
    }
  }

  lemma {:induction false} CompareTransitive(keys: seq<SortKey>, x: Row, y: Row, z: Row)
    requires CompareRows(keys, x, y) != Greater && CompareRows(keys, y, z) != Greater
    ensures CompareRows(keys, x, z) != Greater
    ensures CompareRows(keys, x, z) == Same ==> CompareRows(keys, x, y) == CompareRows(keys, y, z) == Same
  {
    if keys != [] {
      var a, b, c := Get(x, keys[0].column), Get(y, keys[0].column), Get(z, keys[0].column);
      var d := keys[0].descending;
      if CompareCells(d, a, b) == Same && CompareCells(d, b, c) == Same {
        CompareTransitive(keys[1..], x, y, z);
      }
    }
  }

  /** Rows that compare the same agree on every key. */
  lemma {:induction false} SameOnKeys(keys: seq<SortKey>, x: Row, y: Row)
    ensures CompareRows(keys, x, y) == Same
       <==> forall k :: k in keys ==> Get(x, k.column) == Get(y, k.column)
  {
    if keys != [] {
      SameOnKeys(keys[1..], x, y);
      assert keys == [keys[0]] + keys[1..];
    }
  }

  /** Of two cells the one that comes first: a value before a null, and two values as asked. */
  predicate Precedes(descending: bool, x: Cell, y: Cell) {
    x.Value? && (y.Null? || if descending then x.v > y.v else x.v < y.v)
  }

  /** The rows agree on the keys before the `k`-th, and the `k`-th puts `x` first. */
  ghost predicate DecidedAt(keys: seq<SortKey>, k: int, x: Row, y: Row) {
    && 0 <= k < |keys|
    && (forall j :: 0 <= j < k ==> Get(x, keys[j].column) == Get(y, keys[j].column))
    && Precedes(keys[k].descending, Get(x, keys[k].column), Get(y, keys[k].column))
  }

  /** The first key on which two rows differ tells which comes first. */
  lemma {:induction false} FirstDifferenceDecides(keys: seq<SortKey>, x: Row, y: Row)
    ensures CompareRows(keys, x, y) == Less <==> exists k :: DecidedAt(keys, k, x, y)
  {
    if keys != [] {
      var a, b := Get(x, keys[0].column), Get(y, keys[0].column);
      FirstDifferenceDecides(keys[1..], x, y);
      if CompareRows(keys, x, y) == Less {
        if a == b {
          var k :| DecidedAt(keys[1..], k, x, y);
          assert forall j :: 0 < j < k + 1 ==> keys[j] == keys[1..][j - 1];
          assert DecidedAt(keys, k + 1, x, y);
        } else {
          assert DecidedAt(keys, 0, x, y);
        }
      }
      if k :| DecidedAt(keys, k, x, y) {
        if k > 0 {
          assert forall j :: 0 <= j < k - 1 ==> keys[1..][j] == keys[j + 1];
          assert Get(x, keys[0].column) == Get(y, keys[0].column);
          assert DecidedAt(keys[1..], k - 1, x, y);
        }
      }
    }
  }

  lemma {:induction false} CompareConcatenation(a: seq<SortKey>, b: seq<SortKey>, x: Row, y: Row)
    ensures CompareRows(a + b, x, y)
         == if CompareRows(a, x, y) == Same then CompareRows(b, x, y) else CompareRows(a, x, y)
  {
    if a == [] {
      assert a + b == b;
    } else {
      assert (a + b)[1..] == a[1..] + b;
      CompareConcatenation(a[1..], b, x, y);
    }
  }

  /** `in` selects what `eq` does for one of the literals. */
  lemma InIsOneOf(c: string, literals: seq<real>, row: Row)
    ensures Satisfies(In(c, literals), row) <==>
              exists i :: 0 <= i < |literals| && Satisfies(Compare(c, Eq, literals[i]), row)
  {
    if Satisfies(In(c, literals), row) {
      var i :| 0 <= i < |literals| && literals[i] == Get(row, c).v;
      assert Satisfies(Compare(c, Eq, literals[i]), row);
    }
  }

  /** A filter selects by the order of the column: `lt` the rows that come before one with the literal
      in their place, and so on. */
  lemma FiltersFollowTheOrder(c: string, literal: real, row: Row)
    ensures var order, there := CompareRows([SortKey(c, false)], row, row[c := Value(literal)]), Get(row, c).Value?;
      && (Satisfies(Compare(c, Lt, literal), row) <==> order == Less)
      && (Satisfies(Compare(c, Lte, literal), row) <==> order != Greater)
      && (Satisfies(Compare(c, Gt, literal), row) <==> there && order == Greater)
      && (Satisfies(Compare(c, Gte, literal), row) <==> there && order != Less)
      && (Satisfies(Compare(c, Eq, literal), row) <==> order == Same)
      && (Satisfies(Compare(c, Ne, literal), row) <==> there && order != Same)
      && (Satisfies(IsNotNull(c), row) <==> there) && (Satisfies(IsNull(c), row) <==> !there)
  {
    var key := SortKey(c, false);
    assert [key][1..] == [];
    assert CompareRows([key], row, row[c := Value(literal)]) == CompareCells(false, Get(row, c), Value(literal));
  }
}
