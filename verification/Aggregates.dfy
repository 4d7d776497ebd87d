/**
 A validated aggregate, `run_aggregate`: filter, group, measure every group, check its unit, and
 only then sort and cut.
 */
module Aggregates {
  import opened Basics
  import opened Relational
  import opened Sorting

  datatype Fn = CountRows | Count | CountNull | CountDistinct | Sum | Avg | Min | Max

  datatype Measure = Measure(fn: Fn, column: string, alias: string)

  datatype Plan = Plan(
    measures: seq<Measure>, groupBy: seq<string>, filters: seq<Filter>, order: seq<SortKey>, limit: nat,
    unit: Option<string>, split: bool)

  const MAX_GROUPS: nat := 100_000

  /** `key_columns`: what rows are grouped by; the unit too when it is split. */
  function KeyColumns(plan: Plan): seq<string> {
    if plan.unit.Some? && plan.split && plan.unit.value !in plan.groupBy
    then plan.groupBy + [plan.unit.value]
    else plan.groupBy
  }

  predicate ChecksUnit(plan: Plan) {
    plan.unit.Some? && plan.unit.value !in KeyColumns(plan)
  }

  function Aliases(measures: seq<Measure>): seq<string> {
    if measures == [] then [] else [measures[0].alias] + Aliases(measures[1..])
  }

  /** `output_columns`: keys, then the checked unit, then the measures. */
  function OutputColumns(plan: Plan): seq<string> {
    KeyColumns(plan) + (if ChecksUnit(plan) then [plan.unit.value] else []) + Aliases(plan.measures)
  }

  /** What `parse_aggregate_plan` leaves of a plan: distinct names, and order keys among them. */
  ghost predicate WellFormed(plan: Plan) {
    Distinct(OutputColumns(plan)) && forall k :: k in plan.order ==> k.column in OutputColumns(plan)
  }

  // ----- groups

  function Passing(rows: seq<Row>, filters: seq<Filter>): (r: seq<Row>)
    ensures |r| <= |rows|
  {
    if rows == [] then []
    else Passing(rows[..|rows| - 1], filters) + (if Passes(filters, rows[|rows| - 1]) then [rows[|rows| - 1]] else [])
  }

  type Key = seq<Cell>

  function KeyOf(row: Row, columns: seq<string>): (k: Key)
    ensures |k| == |columns|
  {
    if columns == [] then [] else [Get(row, columns[0])] + KeyOf(row, columns[1..])
  }

  function FirstSeen(rows: seq<Row>, columns: seq<string>): (keys: seq<Key>)
    ensures Distinct(keys)
    ensures forall k :: k in keys ==> |k| == |columns|
    ensures forall row :: row in rows ==> KeyOf(row, columns) in keys
  {
    if rows == [] then []
    else
      var before, k := FirstSeen(rows[..|rows| - 1], columns), KeyOf(rows[|rows| - 1], columns);
      assert rows == rows[..|rows| - 1] + [rows[|rows| - 1]];
      if k in before then before else before + [k]
  }

  /** The groups. Without key columns there is one, even of no rows; nulls group together. */
  function Groups(rows: seq<Row>, columns: seq<string>): (keys: seq<Key>)
    ensures Distinct(keys)
    ensures forall k :: k in keys ==> |k| == |columns|
    ensures forall row :: row in rows ==> KeyOf(row, columns) in keys
  {
    if columns == [] then [[]] else FirstSeen(rows, columns)
  }

  function Members(rows: seq<Row>, columns: seq<string>, k: Key): (r: seq<Row>)
    ensures forall row :: row in r ==> row in rows && KeyOf(row, columns) == k
  {
    if rows == [] then []
    else
      var last := rows[|rows| - 1];
      assert rows == rows[..|rows| - 1] + [last];
      Members(rows[..|rows| - 1], columns, k) + (if KeyOf(last, columns) == k then [last] else [])
  }

  /** Rows have the same key when they agree on the columns. */
  lemma {:induction false} SameKeyWhenTheyAgree(a: Row, b: Row, columns: seq<string>)
    ensures KeyOf(a, columns) == KeyOf(b, columns) <==> forall c :: c in columns ==> Get(a, c) == Get(b, c)
  {
    if columns != [] {
      var first, rest := columns[0], columns[1..];
      SameKeyWhenTheyAgree(a, b, rest);
      assert forall c :: c in columns <==> c == first || c in rest;
      assert KeyOf(a, columns)[0] == Get(a, first) && KeyOf(a, columns)[1..] == KeyOf(a, rest);
      assert KeyOf(b, columns)[0] == Get(b, first) && KeyOf(b, columns)[1..] == KeyOf(b, rest);
    }
  }

  lemma {:induction false} KeyAt(row: Row, columns: seq<string>, i: nat)
    requires i < |columns|
    ensures KeyOf(row, columns)[i] == Get(row, columns[i])
  {
    if i > 0 {
      KeyAt(row, columns[1..], i - 1);
    }
  }

  /** The rows that pass, as often as they are there. */
  lemma {:induction false} PassingAre(rows: seq<Row>, filters: seq<Filter>, row: Row)
    ensures multiset(Passing(rows, filters))[row] == if Passes(filters, row) then multiset(rows)[row] else 0
  {
    if rows != [] {
      var init, last := rows[..|rows| - 1], rows[|rows| - 1];
      assert rows == init + [last];
      PassingAre(init, filters, row);
    }
  }

  /** The rows with the key, as often as they are there. */
  lemma {:induction false} MembersAre(rows: seq<Row>, columns: seq<string>, k: Key, row: Row)
    ensures multiset(Members(rows, columns, k))[row] == if KeyOf(row, columns) == k then multiset(rows)[row] else 0
  {
    if rows != [] {
      var init, last := rows[..|rows| - 1], rows[|rows| - 1];
      assert rows == init + [last];
      MembersAre(init, columns, k, row);
    }
  }

  // ----- conservation

  /** The sum of a weight over rows: one for each row counts them, a value adds it up. */
  function Total(rows: seq<Row>, weight: Row -> real): real {
    if rows == [] then 0.0 else Total(rows[..|rows| - 1], weight) + weight(rows[|rows| - 1])
  }

  function TotalOfGroups(keys: seq<Key>, rows: seq<Row>, columns: seq<string>, weight: Row -> real): real {
    if keys == [] then 0.0
    else Total(Members(rows, columns, keys[0]), weight) + TotalOfGroups(keys[1..], rows, columns, weight)
  }

  lemma TotalOneMore(rows: seq<Row>, row: Row, weight: Row -> real)
    ensures Total(rows + [row], weight) == Total(rows, weight) + weight(row)
  {
    assert (rows + [row])[..|rows|] == rows;
  }

  lemma {:induction false} GroupsOneMore(keys: seq<Key>, rows: seq<Row>, row: Row,
                                         columns: seq<string>, weight: Row -> real)
    requires Distinct(keys)
    ensures TotalOfGroups(keys, rows + [row], columns, weight)
         == TotalOfGroups(keys, rows, columns, weight) + (if KeyOf(row, columns) in keys then weight(row) else 0.0)
  {
    if keys != [] {
      assert (rows + [row])[..|rows|] == rows;
      assert keys == [keys[0]] + keys[1..];
      GroupsOneMore(keys[1..], rows, row, columns, weight);
      if KeyOf(row, columns) == keys[0] {
        TotalOneMore(Members(rows, columns, keys[0]), row, weight);
      } else {
        assert Members(rows, columns, keys[0]) + [] == Members(rows, columns, keys[0]);
      }
    }
  }

  lemma {:induction false} EmptyGroups(keys: seq<Key>, columns: seq<string>, weight: Row -> real)
    ensures TotalOfGroups(keys, [], columns, weight) == 0.0
  {
    if keys != [] {
      EmptyGroups(keys[1..], columns, weight);
    }
  }

  /** Grouping conserves every weight, as long as each row's key is one of the keys. */
  lemma {:induction false} GroupsConserve(keys: seq<Key>, rows: seq<Row>, columns: seq<string>, weight: Row -> real)
    requires Distinct(keys) && forall row :: row in rows ==> KeyOf(row, columns) in keys
    ensures TotalOfGroups(keys, rows, columns, weight) == Total(rows, weight)
  {
    if rows == [] {
      EmptyGroups(keys, columns, weight);
    } else {
      var init, last := rows[..|rows| - 1], rows[|rows| - 1];
      assert rows == init + [last];
      GroupsConserve(keys, init, columns, weight);
      GroupsOneMore(keys, init, last, columns, weight);
    }
  }

  // ----- measures

  function Values(rows: seq<Row>, column: string): seq<real> {
    if rows == [] then []
    else
      var cell := Get(rows[|rows| - 1], column);
      Values(rows[..|rows| - 1], column) + (if cell.Value? then [cell.v] else [])
  }

  function SumOf(values: seq<real>): real {
    if values == [] then 0.0 else SumOf(values[..|values| - 1]) + values[|values| - 1]
  }

  function Least(values: seq<real>): (m: real)
    requires values != []
    ensures m in values && forall v :: v in values ==> m <= v
  {
    if |values| == 1 then values[0]
    else
      var m := Least(values[1..]);
      assert values == [values[0]] + values[1..];
      if values[0] <= m then values[0] else m
  }

  function Greatest(values: seq<real>): (m: real)
    requires values != []
    ensures m in values && forall v :: v in values ==> v <= m
  {
    if |values| == 1 then values[0]
    else
      var m := Greatest(values[1..]);
      assert values == [values[0]] + values[1..];
      if values[0] >= m then values[0] else m
  }

  function DistinctValues(values: seq<real>): set<real> {
    set v | v in values
  }

  function Number(n: nat): Cell {
    Value(n as real)
  }

  /** `_measure_sql`: a sum of nothing is null, not zero. */
  function Evaluate(m: Measure, rows: seq<Row>): Cell {
    var values := Values(rows, m.column);
    match m.fn
    case CountRows => Number(|rows|)
    case Count => Number(|values|)
    case CountNull => Value((|rows| - |values|) as real)
    case CountDistinct => Number(|DistinctValues(values)|)
    case Sum => if values == [] then Null else Value(SumOf(values))
    case Avg => if values == [] then Null else Value(SumOf(values) / (|values| as real))
    case Min => if values == [] then Null else Value(Least(values))
    case Max => if values == [] then Null else Value(Greatest(values))
  }

  function One(row: Row): real {
    1.0
  }

  function IsValue(column: string): Row -> real {
    (row: Row) => if Get(row, column).Value? then 1.0 else 0.0
  }

  function IsMissing(column: string): Row -> real {
    (row: Row) => if Get(row, column).Null? then 1.0 else 0.0
  }

  function ValueOr0(column: string): Row -> real {
    (row: Row) => match Get(row, column) case Null => 0.0 case Value(v) => v
  }

  /** The counts of a group and its sum are totals of weights over its rows: `count_null` counts the
      nulls, `count` the others. */
  lemma {:induction false} MeasuresAreTotals(rows: seq<Row>, column: string)
    ensures |rows| as real == Total(rows, One)
    ensures |Values(rows, column)| as real == Total(rows, IsValue(column))
    ensures (|rows| - |Values(rows, column)|) as real == Total(rows, IsMissing(column))
    ensures SumOf(Values(rows, column)) == Total(rows, ValueOr0(column))
  {
    if rows != [] {
      var init, last := rows[..|rows| - 1], rows[|rows| - 1];
      MeasuresAreTotals(init, column);
      if Get(last, column).Value? {
        assert Values(rows, column)[..|Values(rows, column)| - 1] == Values(init, column);
      } else {
        assert Values(rows, column) == Values(init, column);
      }
    }
  }

  /** The groups' row counts, non-null counts, null counts and sums add up to those of all rows that
      pass the filters. */
  lemma AggregateConserves(rows: seq<Row>, columns: seq<string>, column: string)
    ensures TotalOfGroups(Groups(rows, columns), rows, columns, One) == |rows| as real
    ensures TotalOfGroups(Groups(rows, columns), rows, columns, IsValue(column)) == |Values(rows, column)| as real
    ensures TotalOfGroups(Groups(rows, columns), rows, columns, IsMissing(column))
         == (|rows| - |Values(rows, column)|) as real
    ensures TotalOfGroups(Groups(rows, columns), rows, columns, ValueOr0(column)) == SumOf(Values(rows, column))
  {
    var keys := Groups(rows, columns);
    GroupsConserve(keys, rows, columns, One);
    GroupsConserve(keys, rows, columns, IsValue(column));
    GroupsConserve(keys, rows, columns, IsMissing(column));
    GroupsConserve(keys, rows, columns, ValueOr0(column));
    MeasuresAreTotals(rows, column);
  }

  // ----- units

  /** `units_n`: the distinct named units, and one more when some row has none. */
  function UnitCount(rows: seq<Row>, unit: string): nat {
    var values := Values(rows, unit);
    |DistinctValues(values)| + (if |rows| > |values| then 1 else 0)
  }

  ghost predicate MixesUnits(rows: seq<Row>, unit: string) {
    exists i, j :: 0 <= i < |rows| && 0 <= j < |rows| && Get(rows[i], unit) != Get(rows[j], unit)
  }

  ghost predicate HasCell(rows: seq<Row>, column: string, c: Cell) {
    exists i :: 0 <= i < |rows| && Get(rows[i], column) == c
  }

  lemma HasCellInTwo(init: seq<Row>, last: Row, column: string, c: Cell)
    ensures HasCell(init + [last], column, c) <==> HasCell(init, column, c) || Get(last, column) == c
  {
    var rows := init + [last];
    assert rows[|init|] == last;
    if i :| 0 <= i < |init| && Get(init[i], column) == c {
      assert Get(rows[i], column) == c;
    }
  }

  lemma {:induction false} ValueIsACell(rows: seq<Row>, column: string, v: real)
    ensures v in Values(rows, column) <==> HasCell(rows, column, Value(v))
  {
    if rows != [] {
      var init, last := rows[..|rows| - 1], rows[|rows| - 1];
      ValueIsACell(init, column, v);
      HasCellInTwo(init, last, column, Value(v));
      assert rows == init + [last];
    }
  }

  lemma {:induction false} MissingValuesAreNulls(rows: seq<Row>, column: string)
    ensures |Values(rows, column)| <= |rows|
    ensures |Values(rows, column)| < |rows| <==> HasCell(rows, column, Null)
  {
    if rows != [] {
      var init, last := rows[..|rows| - 1], rows[|rows| - 1];
      MissingValuesAreNulls(init, column);
      HasCellInTwo(init, last, column, Null);
      assert rows == init + [last];
    }
  }

  lemma ValuesAreCells(rows: seq<Row>, column: string)
    ensures |Values(rows, column)| <= |rows|
    ensures forall v :: v in Values(rows, column) <==> HasCell(rows, column, Value(v))
    ensures |Values(rows, column)| < |rows| <==> HasCell(rows, column, Null)
  {
    forall v ensures v in Values(rows, column) <==> HasCell(rows, column, Value(v)) {
      ValueIsACell(rows, column, v);
    }
    MissingValuesAreNulls(rows, column);
  }

  lemma TwoOfSet(s: set<real>) returns (x: real, y: real)
    requires |s| > 1
    ensures x in s && y in s && x != y
  {
    x := ElementOf(s);
    var rest := s - {x};
    assert |rest| == |s| - 1;
    y := ElementOf(rest);
  }

  lemma ElementOf(s: set<real>) returns (x: real)
    requires |s| > 0
    ensures x in s
  {
    EmptyOrNot(s);
    x :| x in s;
  }

  lemma EmptyOrNot(s: set<real>)
    ensures s == {} || exists x :: x in s
  {
    if forall x :: x !in s {
      assert s == {};
    }
  }

  lemma OneOfSet(s: set<real>, x: real, y: real)
    requires x in s && y in s && |s| <= 1
    ensures x == y
  {
    var rest := s - {x};
    assert |rest| == |s| - 1;
    assert rest == {};
  }

  /** More than one unit is counted exactly when two rows differ in their unit, a missing unit being
      a unit of its own. */
  lemma UnitsAreCounted(rows: seq<Row>, unit: string)
    ensures UnitCount(rows, unit) > 1 <==> MixesUnits(rows, unit)
  {
    ValuesAreCells(rows, unit);
    var values := Values(rows, unit);
    var named := DistinctValues(values);
    if UnitCount(rows, unit) > 1 {
      if |named| > 1 {
        var x, y := TwoOfSet(named);
        var i :| 0 <= i < |rows| && Get(rows[i], unit) == Value(x);
        var j :| 0 <= j < |rows| && Get(rows[j], unit) == Value(y);
      } else {
        var x := ElementOf(named);
        var i :| 0 <= i < |rows| && Get(rows[i], unit) == Value(x);
        var j :| 0 <= j < |rows| && Get(rows[j], unit) == Null;
      }
    }
    if MixesUnits(rows, unit) {
      var i, j :| 0 <= i < |rows| && 0 <= j < |rows| && Get(rows[i], unit) != Get(rows[j], unit);
      DifferentUnitsCount(rows, unit, i, j);
    }
  }

  lemma DifferentUnitsCount(rows: seq<Row>, unit: string, i: nat, j: nat)
    requires i < |rows| && j < |rows| && Get(rows[i], unit) != Get(rows[j], unit)
    ensures UnitCount(rows, unit) > 1
  {
    ValuesAreCells(rows, unit);
    var named := DistinctValues(Values(rows, unit));
    var x, y := Get(rows[i], unit), Get(rows[j], unit);
    assert x.Value? ==> x.v in named;
    assert y.Value? ==> y.v in named;
    if x.Value? && y.Value? && |named| <= 1 {
      OneOfSet(named, x.v, y.v);
    } else if x.Value? {
      assert |named - {x.v}| == |named| - 1;
    } else {
      assert |named - {y.v}| == |named| - 1;
    }
  }

  // ----- what a measure says

  ghost predicate AllNull(rows: seq<Row>, column: string) {
    forall i :: 0 <= i < |rows| ==> Get(rows[i], column) == Null
  }

  ghost predicate Occurring(rows: seq<Row>, column: string, occurring: set<real>) {
    forall v :: v in occurring <==> HasCell(rows, column, Value(v))
  }

  /** `c` is the measure of the rows, told from their cells alone. */
  ghost predicate IsMeasure(m: Measure, rows: seq<Row>, c: Cell) {
    match m.fn
    case CountRows => c == Value(|rows| as real)
    case Count => c == Value(Total(rows, IsValue(m.column)))
    case CountNull => c == Value(Total(rows, IsMissing(m.column)))
    case CountDistinct => exists occurring :: Occurring(rows, m.column, occurring) && c == Number(|occurring|)
    case _ => if AllNull(rows, m.column) then c == Null else c.Value? && IsValueMeasure(m, rows, c.v)
  }

  /** The least value is the value of some row and no row has a smaller one; the average, taken as
      often as there are values, is their sum. */
  ghost predicate IsValueMeasure(m: Measure, rows: seq<Row>, x: real) {
    match m.fn
    case Sum => x == Total(rows, ValueOr0(m.column))
    case Avg => x * Total(rows, IsValue(m.column)) == Total(rows, ValueOr0(m.column))
    case Min => HasCell(rows, m.column, Value(x)) && forall v | HasCell(rows, m.column, Value(v)) :: x <= v
    case Max => HasCell(rows, m.column, Value(x)) && forall v | HasCell(rows, m.column, Value(v)) :: v <= x
    case _ => false
  }

  lemma SomeValue(rows: seq<Row>, column: string)
    ensures Values(rows, column) == [] <==> AllNull(rows, column)
  {
    ValuesAreCells(rows, column);
    var values := Values(rows, column);
    if values != [] {
      assert values[0] in values;
    }
    forall i | 0 <= i < |rows| && Get(rows[i], column).Value?
      ensures values != []
    {
      assert Get(rows[i], column) == Value(Get(rows[i], column).v);
      assert Get(rows[i], column).v in values;
    }
  }

  lemma DistinctIsMeasure(m: Measure, rows: seq<Row>)
    requires m.fn.CountDistinct?
    ensures IsMeasure(m, rows, Evaluate(m, rows))
  {
    ValuesAreCells(rows, m.column);
    assert Occurring(rows, m.column, DistinctValues(Values(rows, m.column)));
  }

  lemma AverageTimesCount(sum: real, n: nat)
    requires n > 0
    ensures sum / (n as real) * (n as real) == sum
  {
  }

  lemma SumOrAverageIsMeasure(m: Measure, rows: seq<Row>)
    requires (m.fn.Sum? || m.fn.Avg?) && !AllNull(rows, m.column)
    ensures Evaluate(m, rows).Value? && IsValueMeasure(m, rows, Evaluate(m, rows).v)
  {
    SomeValue(rows, m.column);
    MeasuresAreTotals(rows, m.column);
    AverageTimesCount(SumOf(Values(rows, m.column)), |Values(rows, m.column)|);
  }

  lemma ExtremeIsMeasure(m: Measure, rows: seq<Row>)
    requires (m.fn.Min? || m.fn.Max?) && !AllNull(rows, m.column)
    ensures Evaluate(m, rows).Value? && IsValueMeasure(m, rows, Evaluate(m, rows).v)
  {
    SomeValue(rows, m.column);
    ValuesAreCells(rows, m.column);
    var values := Values(rows, m.column);
    var x := Evaluate(m, rows).v;
    assert x in values;
  }

  /** A measure is evaluated to what it says. */
  lemma EvaluateIsMeasure(m: Measure, rows: seq<Row>)
    ensures IsMeasure(m, rows, Evaluate(m, rows))
  {
    match m.fn
    case CountDistinct => DistinctIsMeasure(m, rows);
    case Sum | Avg | Min | Max =>
      SomeValue(rows, m.column);
      if !AllNull(rows, m.column) {
        if m.fn.Sum? || m.fn.Avg? { SumOrAverageIsMeasure(m, rows); } else { ExtremeIsMeasure(m, rows); }
      }
    case _ => MeasuresAreTotals(rows, m.column);
  }

  lemma EvaluatedIsMeasure(m: Measure, rows: seq<Row>, c: Cell)
    requires c == Evaluate(m, rows)
    ensures IsMeasure(m, rows, c)
  {
    EvaluateIsMeasure(m, rows);
  }

  lemma OnlyOneDistinct(rows: seq<Row>, column: string, a: set<real>, b: set<real>)
    requires Occurring(rows, column, a) && Occurring(rows, column, b)
    ensures a == b
  {
    forall v ensures v in a <==> v in b {
      assert v in a <==> HasCell(rows, column, Value(v));
    }
  }

  lemma OnlyOneAverage(x: real, y: real, n: real, sum: real)
    requires n != 0.0 && x * n == sum && y * n == sum
    ensures x == y
  {
    assert (x - y) * n == 0.0;
  }

  lemma OnlyOneValueMeasure(m: Measure, rows: seq<Row>, x: real, y: real)
    requires !AllNull(rows, m.column) && IsValueMeasure(m, rows, x) && IsValueMeasure(m, rows, y)
    ensures x == y
  {
    match m.fn
    case Avg =>
      SomeValue(rows, m.column);
      MeasuresAreTotals(rows, m.column);
      OnlyOneAverage(x, y, Total(rows, IsValue(m.column)), Total(rows, ValueOr0(m.column)));
    case Min => assert x <= y && y <= x;
    case Max => assert x <= y && y <= x;
    case _ =>
  }


  /** A measure says one thing only. */
  lemma OnlyOneMeasure(m: Measure, rows: seq<Row>, a: Cell, b: Cell)
    requires IsMeasure(m, rows, a) && IsMeasure(m, rows, b)
    ensures a == b
  {
    match m.fn
    case CountDistinct =>
      var one :| Occurring(rows, m.column, one) && a == Number(|one|);
      var other :| Occurring(rows, m.column, other) && b == Number(|other|);
      OnlyOneDistinct(rows, m.column, one, other);
    case Sum | Avg | Min | Max =>
      if !AllNull(rows, m.column) {
        OnlyOneValueMeasure(m, rows, a.v, b.v);
      }
    case _ =>
  }

  // ----- splitting by unit

  lemma {:induction false} KeyWithUnit(row: Row, columns: seq<string>, unit: string)
    ensures KeyOf(row, columns + [unit]) == KeyOf(row, columns) + [Get(row, unit)]
  {
    if columns == [] {
      assert columns + [unit] == [unit];
      assert KeyOf(row, [unit][1..]) == [];
    } else {
      assert (columns + [unit])[1..] == columns[1..] + [unit];
      KeyWithUnit(row, columns[1..], unit);
    }
  }

  lemma AppendedEqual(a: Key, x: Cell, b: Key, y: Cell)
    requires |a| == |b|
    ensures a + [x] == b + [y] <==> a == b && x == y
  {
    assert (a + [x])[..|a|] == a && (b + [y])[..|b|] == b;
    assert (a + [x])[|a|] == x && (b + [y])[|b|] == y;
  }

  ghost predicate HasKey(rows: seq<Row>, columns: seq<string>, k: Key) {
    exists i :: 0 <= i < |rows| && KeyOf(rows[i], columns) == k
  }

  /** The groups of rows with key columns are the keys that occur. */
  lemma {:induction false} GroupsAreTheKeys(rows: seq<Row>, columns: seq<string>, k: Key)
    ensures k in FirstSeen(rows, columns) <==> HasKey(rows, columns, k)
    ensures Members(rows, columns, k) != [] <==> HasKey(rows, columns, k)
  {
    if rows != [] {
      var init, last := rows[..|rows| - 1], rows[|rows| - 1];
      GroupsAreTheKeys(init, columns, k);
      assert rows[|init|] == last;
      if HasKey(init, columns, k) {
        var i :| 0 <= i < |init| && KeyOf(init[i], columns) == k;
        assert KeyOf(rows[i], columns) == k;
      }
    }
  }

  /** No group with key columns is empty. */
  lemma NoGroupIsEmpty(rows: seq<Row>, columns: seq<string>, k: Key)
    requires columns != [] && k in Groups(rows, columns)
    ensures Members(rows, columns, k) != []
  {
    GroupsAreTheKeys(rows, columns, k);
  }

  lemma {:induction false} EveryRowIsAMember(rows: seq<Row>, columns: seq<string>, i: nat)
    requires i < |rows|
    ensures rows[i] in Members(rows, columns, KeyOf(rows[i], columns))
  {
    if i < |rows| - 1 {
      EveryRowIsAMember(rows[..|rows| - 1], columns, i);
    }
  }

  /** A key of an unsplit group, followed by a unit that occurs in the group. */
  ghost predicate IsSplitKey(rows: seq<Row>, columns: seq<string>, unit: string, k: Key) {
    exists key, row :: key in Groups(rows, columns) && row in Members(rows, columns, key) && k == key + [Get(row, unit)]
  }

  /** The groups split by unit are exactly the unsplit groups, once for each unit in them. */
  lemma SplitGroupsAreTheUnits(rows: seq<Row>, columns: seq<string>, unit: string, k: Key)
    ensures k in Groups(rows, columns + [unit]) <==> IsSplitKey(rows, columns, unit, k)
  {
    GroupsAreTheKeys(rows, columns + [unit], k);
    if HasKey(rows, columns + [unit], k) {
      var i :| 0 <= i < |rows| && KeyOf(rows[i], columns + [unit]) == k;
      KeyWithUnit(rows[i], columns, unit);
      EveryRowIsAMember(rows, columns, i);
      assert KeyOf(rows[i], columns) in Groups(rows, columns);
    }
    if IsSplitKey(rows, columns, unit, k) {
      var key, row :|
        key in Groups(rows, columns) && row in Members(rows, columns, key) && k == key + [Get(row, unit)];
      KeyWithUnit(row, columns, unit);
      var i :| 0 <= i < |rows| && rows[i] == row;
      assert KeyOf(rows[i], columns + [unit]) == k;
    }
  }

  /** A group split by unit is the part of the unsplit group with that unit. */
  lemma {:induction false} SplitGroupIsPart(rows: seq<Row>, columns: seq<string>, unit: string, k: Key, u: Cell)
    requires |k| == |columns|
    ensures Members(rows, columns + [unit], k + [u]) == Members(Members(rows, columns, k), [unit], [u])
  {
    if rows != [] {
      var init, last := rows[..|rows| - 1], rows[|rows| - 1];
      SplitGroupIsPart(init, columns, unit, k, u);
      KeyWithUnit(last, columns, unit);
      KeyWithUnit(last, [], unit);
      assert [] + [unit] == [unit] && [] + [Get(last, unit)] == [Get(last, unit)];
      var part := Members(init, columns, k);
      AppendedEqual(KeyOf(last, columns), Get(last, unit), k, u);
      if KeyOf(last, columns) == k {
        assert (part + [last])[..|part + [last]| - 1] == part;
        AppendedEqual([], Get(last, unit), [], u);
      } else {
        assert part + [] == part;
        assert Members(init, columns + [unit], k + [u]) + [] == Members(init, columns + [unit], k + [u]);
      }
    }
  }

  /** The split groups partition the unsplit one: every weight of its rows is shared out among them,
      and none of them mixes units. */
  lemma SplitGroupsPartition(rows: seq<Row>, columns: seq<string>, unit: string, k: Key, weight: Row -> real)
    requires |k| == |columns|
    ensures var group := Members(rows, columns, k);
      && TotalOfGroups(Groups(group, [unit]), group, [unit], weight) == Total(group, weight)
      && forall u :: !MixesUnits(Members(rows, columns + [unit], k + [u]), unit)
  {
    var group := Members(rows, columns, k);
    GroupsConserve(Groups(group, [unit]), group, [unit], weight);
    forall u ensures !MixesUnits(Members(rows, columns + [unit], k + [u]), unit) {
      var part := Members(rows, columns + [unit], k + [u]);
      forall i | 0 <= i < |part| ensures Get(part[i], unit) == u {
        assert part[i] in part;
        KeyWithUnit(part[i], columns, unit);
        assert (KeyOf(part[i], columns) + [Get(part[i], unit)])[|columns|] == (k + [u])[|columns|];
      }
    }
  }

  // ----- output

  function KeyCells(columns: seq<string>, k: Key): Row
    requires |k| == |columns|
  {
    if columns == [] then map[] else KeyCells(columns[1..], k[1..])[columns[0] := k[0]]
  }

  function MeasureCells(measures: seq<Measure>, rows: seq<Row>): Row {
    if measures == [] then map[]
    else MeasureCells(measures[1..], rows)[measures[0].alias := Evaluate(measures[0], rows)]
  }

  /** `any_value`: the unit of a group that does not mix units. */
  function AnyValue(rows: seq<Row>, column: string): Cell {
    var values := Values(rows, column);
    if values == [] then Null else Value(values[0])
  }

  /** A group's output. The names are distinct, so no part hides another. */
  function OutputRow(plan: Plan, rows: seq<Row>, k: Key): Row
    requires |k| == |KeyColumns(plan)|
  {
    var group := Members(rows, KeyColumns(plan), k);
    MeasureCells(plan.measures, group)
    + (if ChecksUnit(plan) then map[plan.unit.value := AnyValue(group, plan.unit.value)] else map[])
    + KeyCells(KeyColumns(plan), k)
  }

  lemma {:induction false} KeyCellsAreTheKey(columns: seq<string>, k: Key)
    requires |k| == |columns| && Distinct(columns)
    ensures forall i :: 0 <= i < |columns| ==>
              columns[i] in KeyCells(columns, k) && KeyCells(columns, k)[columns[i]] == k[i]
  {
    if columns != [] {
      KeyCellsAreTheKey(columns[1..], k[1..]);
      forall i | 0 < i < |columns|
        ensures columns[i] in KeyCells(columns, k) && KeyCells(columns, k)[columns[i]] == k[i]
      {
        assert columns[1..][i - 1] == columns[i] && k[1..][i - 1] == k[i];
        assert columns[i] != columns[0];
      }
    }
  }

  lemma {:induction false} MeasureCellsAreTheMeasures(measures: seq<Measure>, rows: seq<Row>, i: nat)
    requires i < |measures| && Distinct(Aliases(measures))
    ensures |Aliases(measures)| == |measures| && Aliases(measures)[i] == measures[i].alias
    ensures measures[i].alias in MeasureCells(measures, rows)
    ensures MeasureCells(measures, rows)[measures[i].alias] == Evaluate(measures[i], rows)
  {
    AliasesAreListed(measures);
    if i > 0 {
      assert Aliases(measures)[1..] == Aliases(measures[1..]);
      assert Aliases(measures)[0] != Aliases(measures)[i];
      MeasureCellsAreTheMeasures(measures[1..], rows, i - 1);
    }
  }

  lemma {:induction false} AliasesAreListed(measures: seq<Measure>)
    ensures |Aliases(measures)| == |measures|
    ensures forall i :: 0 <= i < |measures| ==> Aliases(measures)[i] == measures[i].alias
  {
    if measures != [] {
      AliasesAreListed(measures[1..]);
    }
  }

  lemma {:induction false} KeyCellsHaveKeyColumns(columns: seq<string>, k: Key, c: string)
    requires |k| == |columns| && c in KeyCells(columns, k)
    ensures c in columns
  {
    if c != columns[0] {
      KeyCellsHaveKeyColumns(columns[1..], k[1..], c);
    }
  }

  /** A group's output shows each measure of the group under its alias. */
  lemma MeasureIsShown(plan: Plan, rows: seq<Row>, k: Key, i: nat)
    requires WellFormed(plan) && |k| == |KeyColumns(plan)| && i < |plan.measures|
    ensures Get(OutputRow(plan, rows, k), plan.measures[i].alias)
         == Evaluate(plan.measures[i], Members(rows, KeyColumns(plan), k))
  {
    var columns, names, alias := KeyColumns(plan), OutputColumns(plan), plan.measures[i].alias;
    AliasesAreListed(plan.measures);
    var first := |names| - |plan.measures|;
    assert names[first..] == Aliases(plan.measures) && names[first + i] == alias;
    assert forall j :: 0 <= j < |columns| ==> names[j] == columns[j];
    assert ChecksUnit(plan) ==> names[|columns|] == plan.unit.value;
    MeasureCellsAreTheMeasures(plan.measures, Members(rows, columns, k), i);
    if alias in KeyCells(columns, k) {
      KeyCellsHaveKeyColumns(columns, k, alias);
    }
  }

  /** The unit has a column of its own: it is not one of those grouped by. */
  predicate HasUnitColumn(plan: Plan) {
    plan.unit.Some? && plan.unit.value !in plan.groupBy
  }

  /** An output row tells of a group what its rows have in common, and its measures. */
  ghost predicate ShowsGroup(plan: Plan, group: seq<Row>, shown: seq<Cell>) {
    var n := |plan.groupBy|;
    var first := if HasUnitColumn(plan) then n + 1 else n;
    && |shown| == first + |plan.measures|
    && (forall c, i :: 0 <= c < n && 0 <= i < |group| ==> shown[c] == Get(group[i], plan.groupBy[c]))
    && (HasUnitColumn(plan) ==> forall i :: 0 <= i < |group| ==> shown[n] == Get(group[i], plan.unit.value))
    && (HasUnitColumn(plan) && group == [] ==> shown[n] == Null)
    && (forall m :: 0 <= m < |plan.measures| ==> IsMeasure(plan.measures[m], group, shown[first + m]))
  }

  lemma AnyUnitIsTheUnit(group: seq<Row>, unit: string, i: nat)
    requires i < |group| && !MixesUnits(group, unit)
    ensures AnyValue(group, unit) == Get(group[i], unit)
  {
    ValuesAreCells(group, unit);
    SomeValue(group, unit);
    var values := Values(group, unit);
    if values != [] {
      assert values[0] in values;
      var j :| 0 <= j < |group| && Get(group[j], unit) == Value(values[0]);
    }
  }

  lemma KeyIsShown(plan: Plan, rows: seq<Row>, k: Key, c: nat)
    requires WellFormed(plan) && |k| == |KeyColumns(plan)| && c < |k|
    ensures Project(OutputRow(plan, rows, k), OutputColumns(plan))[c] == k[c]
    ensures forall row :: row in Members(rows, KeyColumns(plan), k) ==> Get(row, KeyColumns(plan)[c]) == k[c]
  {
    var columns, names := KeyColumns(plan), OutputColumns(plan);
    assert forall j :: 0 <= j < |columns| ==> names[j] == columns[j];
    assert Distinct(columns);
    KeyCellsAreTheKey(columns, k);
    forall row | row in Members(rows, columns, k) ensures Get(row, columns[c]) == k[c] {
      KeyAt(row, columns, c);
    }
  }

  lemma UnitIsShown(plan: Plan, rows: seq<Row>, k: Key)
    requires WellFormed(plan) && |k| == |KeyColumns(plan)| && ChecksUnit(plan)
    ensures Project(OutputRow(plan, rows, k), OutputColumns(plan))[|k|]
         == AnyValue(Members(rows, KeyColumns(plan), k), plan.unit.value)
  {
    var columns, names := KeyColumns(plan), OutputColumns(plan);
    var unit := plan.unit.value;
    assert names[|columns|] == unit;
    if unit in KeyCells(columns, k) {
      KeyCellsHaveKeyColumns(columns, k, unit);
    }
  }

  /** The `m`-th of the last `n` cells. */
  function MeasureCell(shown: seq<Cell>, n: nat, m: nat): Cell
    requires m < n <= |shown|
  {
    shown[|shown| - n + m]
  }

  lemma MeasureIsProjected(plan: Plan, rows: seq<Row>, k: Key, m: nat)
    requires WellFormed(plan) && |k| == |KeyColumns(plan)| && m < |plan.measures|
    ensures |OutputColumns(plan)| >= |plan.measures|
    ensures var shown := Project(OutputRow(plan, rows, k), OutputColumns(plan));
      MeasureCell(shown, |plan.measures|, m) == Evaluate(plan.measures[m], Members(rows, KeyColumns(plan), k))
  {
    AliasesAreListed(plan.measures);
    var names := OutputColumns(plan);
    assert names[|names| - |plan.measures|..] == Aliases(plan.measures);
    assert names[|names| - |plan.measures| + m] == plan.measures[m].alias;
    MeasureIsShown(plan, rows, k, m);
  }

  ghost predicate ShowsKey(columns: seq<string>, group: seq<Row>, shown: seq<Cell>) {
    && |columns| <= |shown|
    && forall c, i :: 0 <= c < |columns| && 0 <= i < |group| ==> shown[c] == Get(group[i], columns[c])
  }

  ghost predicate ShowsMeasures(measures: seq<Measure>, group: seq<Row>, shown: seq<Cell>) {
    && |shown| >= |measures|
    && forall m :: 0 <= m < |measures| ==> IsMeasure(measures[m], group, MeasureCell(shown, |measures|, m))
  }

  lemma KeysAreShown(plan: Plan, rows: seq<Row>, k: Key)
    requires WellFormed(plan) && |k| == |KeyColumns(plan)|
    ensures ShowsKey(KeyColumns(plan), Members(rows, KeyColumns(plan), k),
                     Project(OutputRow(plan, rows, k), OutputColumns(plan)))
  {
    var columns, group := KeyColumns(plan), Members(rows, KeyColumns(plan), k);
    var shown := Project(OutputRow(plan, rows, k), OutputColumns(plan));
    forall c, i | 0 <= c < |columns| && 0 <= i < |group| ensures shown[c] == Get(group[i], columns[c]) {
      KeyIsShown(plan, rows, k, c);
      assert group[i] in group;
    }
  }

  lemma ShowsGroupWhen(plan: Plan, group: seq<Row>, shown: seq<Cell>)
    requires |shown| == |OutputColumns(plan)| && |Aliases(plan.measures)| == |plan.measures|
    requires ShowsKey(KeyColumns(plan), group, shown) && ShowsMeasures(plan.measures, group, shown)
    requires ChecksUnit(plan) ==> shown[|KeyColumns(plan)|] == AnyValue(group, plan.unit.value)
    requires ChecksUnit(plan) ==> !MixesUnits(group, plan.unit.value)
    requires group == [] ==> KeyColumns(plan) == []
    ensures ShowsGroup(plan, group, shown)
  {
    if ChecksUnit(plan) {
      CommonUnit(group, plan.unit.value);
    }
  }

  /** The output of a group that does not mix units tells what it should. */
  lemma OutputShowsGroup(plan: Plan, rows: seq<Row>, k: Key)
    requires WellFormed(plan) && k in Groups(rows, KeyColumns(plan))
    requires ChecksUnit(plan) ==> !MixesUnits(Members(rows, KeyColumns(plan), k), plan.unit.value)
    ensures ShowsGroup(plan, Members(rows, KeyColumns(plan), k), Project(OutputRow(plan, rows, k), OutputColumns(plan)))
  {
    var shown := Project(OutputRow(plan, rows, k), OutputColumns(plan));
    AliasesAreListed(plan.measures);
    if KeyColumns(plan) != [] {
      NoGroupIsEmpty(rows, KeyColumns(plan), k);
    }
    KeysAreShown(plan, rows, k);
    MeasuresAreShown(plan, rows, k);
    if ChecksUnit(plan) {
      UnitIsShown(plan, rows, k);
    }
    ShowsGroupWhen(plan, Members(rows, KeyColumns(plan), k), shown);
  }

  lemma CommonUnit(group: seq<Row>, unit: string)
    requires !MixesUnits(group, unit)
    ensures forall i :: 0 <= i < |group| ==> AnyValue(group, unit) == Get(group[i], unit)
  {
    forall i | 0 <= i < |group| ensures AnyValue(group, unit) == Get(group[i], unit) {
      AnyUnitIsTheUnit(group, unit, i);
    }
  }

  lemma MeasuresAreShown(plan: Plan, rows: seq<Row>, k: Key)
    requires WellFormed(plan) && |k| == |KeyColumns(plan)|
    ensures ShowsMeasures(plan.measures, Members(rows, KeyColumns(plan), k),
                          Project(OutputRow(plan, rows, k), OutputColumns(plan)))
  {
    var group, measures := Members(rows, KeyColumns(plan), k), plan.measures;
    var shown := Project(OutputRow(plan, rows, k), OutputColumns(plan));
    AliasesAreListed(measures);
    forall m | 0 <= m < |measures| ensures IsMeasure(measures[m], group, MeasureCell(shown, |measures|, m)) {
      MeasureIsProjected(plan, rows, k, m);
      EvaluatedIsMeasure(measures[m], group, MeasureCell(shown, |measures|, m));
    }
  }

  /** In every group shown, `count` plus `count_null` of a column is `count_rows`. */
  lemma CountsAddUp(plan: Plan, rows: seq<Row>, k: Key, a: nat, b: nat, c: nat)
    requires WellFormed(plan) && |k| == |KeyColumns(plan)|
    requires a < |plan.measures| && b < |plan.measures| && c < |plan.measures|
    requires plan.measures[a].fn.Count? && plan.measures[b].fn.CountNull? && plan.measures[c].fn.CountRows?
    requires plan.measures[a].column == plan.measures[b].column
    ensures var shown := OutputRow(plan, rows, k);
      && Get(shown, plan.measures[a].alias).Value? && Get(shown, plan.measures[b].alias).Value?
      && Get(shown, plan.measures[c].alias)
         == Value(Get(shown, plan.measures[a].alias).v + Get(shown, plan.measures[b].alias).v)
  {
    MeasureIsShown(plan, rows, k, a);
    MeasureIsShown(plan, rows, k, b);
    MeasureIsShown(plan, rows, k, c);
  }

  // ----- order

  function AscendingKeys(columns: seq<string>, order: seq<SortKey>): (r: seq<SortKey>)
    ensures forall c :: c in columns ==> (exists k :: k in order && k.column == c) || SortKey(c, false) in r
  {
    if columns == [] then []
    else
      (if exists k :: k in order && k.column == columns[0] then [] else [SortKey(columns[0], false)])
      + AscendingKeys(columns[1..], order)
  }

  /** The requested order, then the group keys it does not name. */
  function FullOrder(plan: Plan): seq<SortKey> {
    plan.order + AscendingKeys(KeyColumns(plan), plan.order)
  }

  function GroupOrder(plan: Plan, rows: seq<Row>): (Key, Key) -> bool {
    (a: Key, b: Key) =>
      |a| == |b| == |KeyColumns(plan)| &&
      CompareRows(FullOrder(plan), OutputRow(plan, rows, a), OutputRow(plan, rows, b)) != Greater
  }

  lemma SameOutputSameKey(plan: Plan, rows: seq<Row>, a: Key, b: Key)
    requires Distinct(KeyColumns(plan)) && |a| == |b| == |KeyColumns(plan)|
    requires CompareRows(FullOrder(plan), OutputRow(plan, rows, a), OutputRow(plan, rows, b)) == Same
    ensures a == b
  {
    var columns := KeyColumns(plan);
    KeyCellsAreTheKey(columns, a);
    KeyCellsAreTheKey(columns, b);
    SameOnKeys(FullOrder(plan), OutputRow(plan, rows, a), OutputRow(plan, rows, b));
    forall i | 0 <= i < |columns| ensures a[i] == b[i] {
      assert columns[i] in columns;
      if SortKey(columns[i], false) in AscendingKeys(columns, plan.order) {
        assert SortKey(columns[i], false) in FullOrder(plan);
      } else {
        var k :| k in plan.order && k.column == columns[i];
        assert k in FullOrder(plan);
      }
    }
  }

  lemma GroupOrderIsTotal(plan: Plan, rows: seq<Row>, keys: set<Key>)
    requires Distinct(KeyColumns(plan)) && forall k :: k in keys ==> |k| == |KeyColumns(plan)|
    ensures TotalOrderOn(GroupOrder(plan, rows), keys)
  {
    var le, order := GroupOrder(plan, rows), FullOrder(plan);
    forall a, b | a in keys && b in keys ensures le(a, b) || le(b, a)
      ensures le(a, b) && le(b, a) ==> a == b
    {
      CompareReversed(order, OutputRow(plan, rows, a), OutputRow(plan, rows, b));
      if le(a, b) && le(b, a) {
        SameOutputSameKey(plan, rows, a, b);
      }
    }
    forall a, b, c | a in keys && b in keys && c in keys && le(a, b) && le(b, c) ensures le(a, c) {
      CompareTransitive(order, OutputRow(plan, rows, a), OutputRow(plan, rows, b), OutputRow(plan, rows, c));
    }
  }

  /** All groups in their one order. */
  function Ordered(plan: Plan, rows: seq<Row>): seq<Key> {
    Sort(GroupOrder(plan, rows), Groups(rows, KeyColumns(plan)))
  }

  /** Whatever order the engine finds the groups in, a sorted listing of them is this one. */
  lemma OnlyOneOrder(plan: Plan, rows: seq<Row>, listing: seq<Key>)
    requires Distinct(KeyColumns(plan))
    requires multiset(listing) == multiset(Groups(rows, KeyColumns(plan)))
    requires SortedBy(GroupOrder(plan, rows), listing)
    ensures listing == Ordered(plan, rows)
    ensures Distinct(listing)
  {
    var groups := Groups(rows, KeyColumns(plan));
    var all := Sorting.Members(groups);
    GroupOrderIsTotal(plan, rows, all);
    SortSorts(GroupOrder(plan, rows), groups, all);
    SameMembers(listing, groups);
    SortedIsUnique(GroupOrder(plan, rows), listing, Ordered(plan, rows), all);
    DistinctPermutation(groups, listing);
  }

  function Ascending(columns: seq<string>): seq<SortKey> {
    seq(|columns|, i requires 0 <= i < |columns| => SortKey(columns[i], false))
  }

  lemma {:induction false} OtherKeysAscend(columns: seq<string>, order: seq<SortKey>, x: Row, y: Row)
    requires CompareRows(order, x, y) == Same
    ensures CompareRows(AscendingKeys(columns, order), x, y) == CompareRows(Ascending(columns), x, y)
  {
    SameOnKeys(order, x, y);
    if columns != [] {
      var c, rest := columns[0], columns[1..];
      OtherKeysAscend(rest, order, x, y);
      var key, others := SortKey(c, false), AscendingKeys(rest, order);
      assert Ascending(columns) == [key] + Ascending(rest);
      CompareConcatenation([key], Ascending(rest), x, y);
      if exists k :: k in order && k.column == c {
        assert AscendingKeys(columns, order) == [] + others == others;
        SameInOne(key, x, y);
      } else {
        assert AscendingKeys(columns, order) == [key] + others;
        CompareConcatenation([key], others, x, y);
      }
    }
  }

  lemma SameInOne(key: SortKey, x: Row, y: Row)
    requires Get(x, key.column) == Get(y, key.column)
    ensures CompareRows([key], x, y) == Same
  {
    assert [key][1..] == [];
  }

  /** The groups come as requested, those that tie by their keys, smallest first; no two tie on both. */
  lemma GroupsInOrder(plan: Plan, rows: seq<Row>, i: nat, j: nat)
    requires WellFormed(plan) && i < j < |Ordered(plan, rows)|
    ensures |Ordered(plan, rows)[i]| == |Ordered(plan, rows)[j]| == |KeyColumns(plan)|
    ensures var x, y := OutputRow(plan, rows, Ordered(plan, rows)[i]), OutputRow(plan, rows, Ordered(plan, rows)[j]);
      && CompareRows(plan.order, x, y) != Greater
      && (CompareRows(plan.order, x, y) == Same ==> CompareRows(Ascending(KeyColumns(plan)), x, y) == Less)
  {
    var groups, ordered := Groups(rows, KeyColumns(plan)), Ordered(plan, rows);
    var all := Sorting.Members(groups);
    NamesAreDistinct(plan);
    GroupOrderIsTotal(plan, rows, all);
    SortSorts(GroupOrder(plan, rows), groups, all);
    SameMembers(ordered, groups);
    DistinctPermutation(groups, ordered);
    var a, b := ordered[i], ordered[j];
    assert a in Sorting.Members(ordered) && b in Sorting.Members(ordered);
    assert GroupOrder(plan, rows)(a, b) && a != b;
    InOrderAsRequested(plan, rows, a, b);
  }

  lemma NamesAreDistinct(plan: Plan)
    requires WellFormed(plan)
    ensures Distinct(KeyColumns(plan))
  {
    assert forall i :: 0 <= i < |KeyColumns(plan)| ==> OutputColumns(plan)[i] == KeyColumns(plan)[i];
  }

  lemma InOrderAsRequested(plan: Plan, rows: seq<Row>, a: Key, b: Key)
    requires Distinct(KeyColumns(plan)) && |a| == |b| == |KeyColumns(plan)| && a != b
    requires GroupOrder(plan, rows)(a, b)
    ensures var x, y := OutputRow(plan, rows, a), OutputRow(plan, rows, b);
      && CompareRows(plan.order, x, y) != Greater
      && (CompareRows(plan.order, x, y) == Same ==> CompareRows(Ascending(KeyColumns(plan)), x, y) == Less)
  {
    var x, y, columns := OutputRow(plan, rows, a), OutputRow(plan, rows, b), KeyColumns(plan);
    assert CompareRows(FullOrder(plan), x, y) != Greater;
    CompareConcatenation(plan.order, AscendingKeys(columns, plan.order), x, y);
    if CompareRows(plan.order, x, y) == Same {
      OtherKeysAscend(columns, plan.order, x, y);
      if CompareRows(FullOrder(plan), x, y) == Same {
        SameOutputSameKey(plan, rows, a, b);
      }
    }
  }

  function Counted(c: Cell): real {
    match c case Null => 0.0 case Value(v) => v
  }

  /** A column of the output, added up over groups. */
  function ShownTotal(plan: Plan, rows: seq<Row>, keys: seq<Key>, alias: string): real
    requires forall k :: k in keys ==> |k| == |KeyColumns(plan)|
  {
    if keys == [] then 0.0
    else
      assert keys == [keys[0]] + keys[1..];
      Counted(Get(OutputRow(plan, rows, keys[0]), alias)) + ShownTotal(plan, rows, keys[1..], alias)
  }

  function WeightOf(m: Measure): Row -> real {
    match m.fn
    case Count => IsValue(m.column)
    case CountNull => IsMissing(m.column)
    case Sum => ValueOr0(m.column)
    case _ => One
  }

  predicate Adds(m: Measure) {
    m.fn.CountRows? || m.fn.Count? || m.fn.CountNull? || m.fn.Sum?
  }

  lemma {:induction false} ShownTotalIsTotal(plan: Plan, rows: seq<Row>, keys: seq<Key>, i: nat)
    requires WellFormed(plan) && i < |plan.measures| && Adds(plan.measures[i])
    requires forall k :: k in keys ==> |k| == |KeyColumns(plan)|
    ensures ShownTotal(plan, rows, keys, plan.measures[i].alias)
         == TotalOfGroups(keys, rows, KeyColumns(plan), WeightOf(plan.measures[i]))
  {
    if keys != [] {
      assert keys == [keys[0]] + keys[1..];
      var group := Members(rows, KeyColumns(plan), keys[0]);
      MeasureIsShown(plan, rows, keys[0], i);
      MeasureIsWeight(plan.measures[i], group);
      ShownTotalIsTotal(plan, rows, keys[1..], i);
    }
  }

  lemma MeasureIsWeight(m: Measure, rows: seq<Row>)
    requires Adds(m)
    ensures Counted(Evaluate(m, rows)) == Total(rows, WeightOf(m))
  {
    MeasuresAreTotals(rows, m.column);
  }

  /** Added up over all groups in their order, what the output shows for `count_rows`, `count`,
      `count_null` or `sum` is that measure of all rows that pass the filters. */
  lemma OutputConserves(plan: Plan, rows: seq<Row>, i: nat)
    requires WellFormed(plan) && i < |plan.measures| && Adds(plan.measures[i])
    ensures forall k :: k in Ordered(plan, rows) ==> |k| == |KeyColumns(plan)|
    ensures ShownTotal(plan, rows, Ordered(plan, rows), plan.measures[i].alias)
         == Counted(Evaluate(plan.measures[i], rows))
  {
    var columns := KeyColumns(plan);
    var ordered, groups := Ordered(plan, rows), Groups(rows, columns);
    SameMembers(ordered, groups);
    forall k ensures k in ordered <==> k in groups {
      assert k in Sorting.Members(ordered) <==> k in Sorting.Members(groups);
    }
    DistinctPermutation(groups, ordered);
    ShownTotalIsTotal(plan, rows, ordered, i);
    GroupsConserve(ordered, rows, columns, WeightOf(plan.measures[i]));
    MeasureIsWeight(plan.measures[i], rows);
  }

  // ----- the run

  datatype Outcome =
    | MissingColumn
    | TooManyGroups(groupCount: nat)
    | MixedUnits(mixedCount: nat)
    | Answer(rows: seq<seq<Cell>>, inputCount: nat, groupCount: nat)

  function NamedColumns(plan: Plan): seq<string> {
    plan.groupBy
    + (if plan.unit.Some? then [plan.unit.value] else [])
    + MeasuredColumns(plan.measures)
    + seq(|plan.filters|, i requires 0 <= i < |plan.filters| => plan.filters[i].column)
  }

  predicate Known(columns: seq<string>, plan: Plan) {
    forall c :: c in NamedColumns(plan) ==> c in columns
  }

  function MeasuredColumns(measures: seq<Measure>): seq<string> {
    if measures == [] then []
    else (if measures[0].fn.CountRows? then [] else [measures[0].column]) + MeasuredColumns(measures[1..])
  }

  /** The request names the column, to group by, as unit, to measure or to filter. */
  ghost predicate Names(plan: Plan, c: string) {
    || c in plan.groupBy
    || plan.unit == Some(c)
    || (exists m :: m in plan.measures && !m.fn.CountRows? && m.column == c)
    || (exists f :: f in plan.filters && f.column == c)
  }

  lemma {:induction false} MeasuredColumnsAre(measures: seq<Measure>, c: string)
    ensures c in MeasuredColumns(measures) <==> exists m :: m in measures && !m.fn.CountRows? && m.column == c
  {
    if measures != [] {
      MeasuredColumnsAre(measures[1..], c);
      assert measures == [measures[0]] + measures[1..];
    }
  }

  lemma NamedColumnsAre(plan: Plan, c: string)
    ensures c in NamedColumns(plan) <==> Names(plan, c)
  {
    MeasuredColumnsAre(plan.measures, c);
    var filtered := seq(|plan.filters|, i requires 0 <= i < |plan.filters| => plan.filters[i].column);
    if f :| f in plan.filters && f.column == c {
      var i :| 0 <= i < |plan.filters| && plan.filters[i] == f;
      assert filtered[i] == c;
    }
  }

  lemma KnownWhenNamesAre(columns: seq<string>, plan: Plan)
    ensures Known(columns, plan) <==> forall c | Names(plan, c) :: c in columns
  {
    forall c ensures c in NamedColumns(plan) <==> Names(plan, c) {
      NamedColumnsAre(plan, c);
    }
  }

  /** The request has a unit that is neither grouped by nor split, and some group holds two of it. */
  ghost predicate RefusesUnits(plan: Plan, rows: seq<Row>) {
    && HasUnitColumn(plan) && !plan.split
    && exists k :: k in Groups(rows, plan.groupBy) && MixesUnits(Members(rows, plan.groupBy, k), plan.unit.value)
  }

  /** The groups with more than one unit. */
  function Mixed(plan: Plan, rows: seq<Row>, keys: seq<Key>): (r: seq<Key>)
    ensures Distinct(keys) ==> Distinct(r)
    ensures forall k :: k in r <==>
              k in keys && ChecksUnit(plan) && UnitCount(Members(rows, KeyColumns(plan), k), plan.unit.value) > 1
  {
    if keys == [] || !ChecksUnit(plan) then []
    else
      assert keys == [keys[0]] + keys[1..];
      (if UnitCount(Members(rows, KeyColumns(plan), keys[0]), plan.unit.value) > 1 then [keys[0]] else [])
      + Mixed(plan, rows, keys[1..])
  }

  function OutputRows(plan: Plan, rows: seq<Row>, keys: seq<Key>): (r: seq<seq<Cell>>)
    requires forall k :: k in keys ==> |k| == |KeyColumns(plan)|
    ensures |r| == |keys|
    ensures forall i :: 0 <= i < |keys| ==> r[i] == Project(OutputRow(plan, rows, keys[i]), OutputColumns(plan))
  {
    seq(|keys|, i requires 0 <= i < |keys| => Project(OutputRow(plan, rows, keys[i]), OutputColumns(plan)))
  }

  function Smaller(a: nat, b: nat): nat {
    if a < b then a else b
  }

  /** Whether some group holds two rows with different units, when units are checked. */
  ghost predicate SomeGroupMixes(plan: Plan, rows: seq<Row>) {
    && ChecksUnit(plan)
    && exists k :: k in Groups(rows, KeyColumns(plan))
                && MixesUnits(Members(rows, KeyColumns(plan), k), plan.unit.value)
  }

  lemma AllOutputShowsGroups(plan: Plan, rows: seq<Row>)
    requires WellFormed(plan) && !SomeGroupMixes(plan, rows)
    ensures |Ordered(plan, rows)| == |Groups(rows, KeyColumns(plan))|
    ensures forall k :: k in Ordered(plan, rows) ==> |k| == |KeyColumns(plan)| && OutputTells(plan, rows, k)
  {
    var ordered, groups := Ordered(plan, rows), Groups(rows, KeyColumns(plan));
    SameMembers(ordered, groups);
    forall k | k in ordered ensures |k| == |KeyColumns(plan)| && OutputTells(plan, rows, k) {
      assert k in Sorting.Members(ordered);
      OutputShowsGroup(plan, rows, k);
    }
  }

  ghost predicate OutputTells(plan: Plan, rows: seq<Row>, k: Key)
    requires |k| == |KeyColumns(plan)|
  {
    ShowsGroup(plan, Members(rows, KeyColumns(plan), k), Project(OutputRow(plan, rows, k), OutputColumns(plan)))
  }

  /** The first groups in their order, each as its output row, which tells of all rows of the group. */
  ghost predicate ShowsFirstGroups(plan: Plan, rows: seq<Row>, answer: seq<seq<Cell>>) {
    && |answer| <= |Ordered(plan, rows)|
    && forall i :: 0 <= i < |answer| ==>
         && |Ordered(plan, rows)[i]| == |KeyColumns(plan)|
         && answer[i] == Project(OutputRow(plan, rows, Ordered(plan, rows)[i]), OutputColumns(plan))
         && ShowsGroup(plan, Members(rows, KeyColumns(plan), Ordered(plan, rows)[i]), answer[i])
  }

  lemma FirstGroupsShown(plan: Plan, rows: seq<Row>, n: nat)
    requires WellFormed(plan) && n <= |Ordered(plan, rows)|
    requires forall k :: k in Ordered(plan, rows) ==> |k| == |KeyColumns(plan)| && OutputTells(plan, rows, k)
    ensures ShowsFirstGroups(plan, rows, OutputRows(plan, rows, Ordered(plan, rows)[..n]))
  {
    var ordered := Ordered(plan, rows);
    forall i | 0 <= i < n ensures |ordered[i]| == |KeyColumns(plan)| && OutputTells(plan, rows, ordered[i]) {
      assert ordered[i] in ordered;
    }
  }

  /** `run_aggregate`. Every group is measured and checked before any is cut off. */
  method RunAggregate(columns: seq<string>, table: seq<Row>, plan: Plan) returns (o: Outcome)
    requires WellFormed(plan)
    ensures o.MissingColumn? <==> exists c :: Names(plan, c) && c !in columns
    ensures o.MixedUnits? ==> RefusesUnits(plan, Passing(table, plan.filters))
    ensures o.Answer? ==> !RefusesUnits(plan, Passing(table, plan.filters))
    ensures o.Answer? && HasUnitColumn(plan) && plan.split ==>
              o.groupCount == |Groups(Passing(table, plan.filters), plan.groupBy + [plan.unit.value])|
    ensures o.Answer? && !(HasUnitColumn(plan) && plan.split) ==>
              o.groupCount == |Groups(Passing(table, plan.filters), plan.groupBy)|
    // without anything to group by there is one group, even of no rows
    ensures o.Answer? && plan.groupBy == [] && !(plan.unit.Some? && plan.split) ==> o.groupCount == 1
    ensures var rows := Passing(table, plan.filters);
      var groups := Groups(rows, KeyColumns(plan));
      match o
      case MissingColumn => !Known(columns, plan)
      case TooManyGroups(n) => Known(columns, plan) && n == |groups| > MAX_GROUPS
      case MixedUnits(n) =>
        && Known(columns, plan) && |groups| <= MAX_GROUPS && SomeGroupMixes(plan, rows)
        && n == |Mixed(plan, rows, groups)| > 0
      case Answer(answer, inputCount, groupCount) =>
        && Known(columns, plan) && |groups| <= MAX_GROUPS && !SomeGroupMixes(plan, rows)
        && inputCount == |rows| && groupCount == |groups| == |Ordered(plan, rows)|
        && |answer| == Smaller(plan.limit, groupCount) && ShowsFirstGroups(plan, rows, answer)
  {
    KnownWhenNamesAre(columns, plan);
    if !Known(columns, plan) {
      return MissingColumn;
    }
    var rows := Passing(table, plan.filters);
    var groups := Groups(rows, KeyColumns(plan));
    if |groups| > MAX_GROUPS {
      return TooManyGroups(|groups|);
    }
    var mixed := Mixed(plan, rows, groups);
    forall k | k in groups && ChecksUnit(plan)
      ensures k in mixed <==> MixesUnits(Members(rows, KeyColumns(plan), k), plan.unit.value)
    {
      UnitsAreCounted(Members(rows, KeyColumns(plan), k), plan.unit.value);
    }
    if |mixed| > 0 {
      assert mixed[0] in mixed;
      return MixedUnits(|mixed|);
    }
    var ordered := Ordered(plan, rows);
    AllOutputShowsGroups(plan, rows);
    var n := Smaller(plan.limit, |groups|);
    FirstGroupsShown(plan, rows, n);
    o := Answer(OutputRows(plan, rows, ordered[..n]), |rows|, |groups|);
  }
}
