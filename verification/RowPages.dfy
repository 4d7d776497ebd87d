/**
 One page of a table's rows, `read_page`: filtered, sorted by the requested keys and then by the
 position in the file, and cut.

 The engine is represented by what SQL promises: the page is a slice of *some* sequence of the
 filtered rows that is sorted by the order given. `OnlyOneAnswer` says there is no other.
 */
module RowPages {
  import opened Basics
  import opened Relational
  import opened Sorting

  /** The snapshot: its columns, and its rows in file order. */
  datatype Snapshot = Snapshot(columns: seq<string>, rows: seq<Row>)

  datatype Plan = Plan(
    offset: nat, pageSize: nat, columns: Option<seq<string>>, sort: seq<SortKey>, filters: seq<Filter>, count: bool)

  datatype Page = Page(rows: seq<seq<Cell>>, count: Option<nat>, hasMore: bool)

  // ----- order and filter

  /** Sort keys first, then the row's position, which breaks every tie. */
  function RowOrder(rows: seq<Row>, sort: seq<SortKey>): (nat, nat) -> bool {
    (i: nat, j: nat) =>
      if i < |rows| && j < |rows| then
        match CompareRows(sort, rows[i], rows[j])
        case Less => true
        case Same => i <= j
        case Greater => false
      else i <= j
  }

  ghost function UpTo(n: nat): (r: set<nat>)
    ensures forall i: nat :: i in r <==> i < n
  {
    if n == 0 then {} else UpTo(n - 1) + {n - 1}
  }

  ghost function Positions(rows: seq<Row>): set<nat> {
    UpTo(|rows|)
  }

  lemma RowOrderIsTotal(rows: seq<Row>, sort: seq<SortKey>)
    ensures TotalOrderOn(RowOrder(rows, sort), Positions(rows))
  {
    var le := RowOrder(rows, sort);
    forall i: nat, j: nat | i < |rows| && j < |rows| ensures le(i, j) || le(j, i)
      ensures le(i, j) && le(j, i) ==> i == j
    {
      CompareReversed(sort, rows[i], rows[j]);
    }
    forall i: nat, j: nat, k: nat | i < |rows| && j < |rows| && k < |rows| && le(i, j) && le(j, k) ensures le(i, k) {
      CompareTransitive(sort, rows[i], rows[j], rows[k]);
    }
  }

  /** The positions of the rows that pass, in file order. */
  function Filtered(rows: seq<Row>, filters: seq<Filter>, from: nat): (r: seq<nat>)
    requires from <= |rows|
    ensures forall i :: i in r <==> from <= i < |rows| && Passes(filters, rows[i])
    ensures Distinct(r)
    decreases |rows| - from
  {
    if from == |rows| then []
    else
      var rest := Filtered(rows, filters, from + 1);
      if Passes(filters, rows[from]) then
        assert forall i :: 0 <= i < |rest| ==> rest[i] in rest;
        [from] + rest
      else rest
  }

  function Selected(s: Snapshot, plan: Plan): seq<nat> {
    Filtered(s.rows, plan.filters, 0)
  }

  /** The whole answer, in order, as positions in the file. */
  function Answer(s: Snapshot, plan: Plan): seq<nat> {
    Sort(RowOrder(s.rows, plan.sort), Selected(s, plan))
  }

  lemma SelectedArePositions(s: Snapshot, plan: Plan)
    ensures Members(Selected(s, plan)) <= Positions(s.rows)
    ensures Members(Answer(s, plan)) == Members(Selected(s, plan)) && |Answer(s, plan)| == |Selected(s, plan)|
  {
    SameMembers(Answer(s, plan), Selected(s, plan));
  }

  /** What the order means: rows are in the order of the sort keys, a null after every value of the first
      key whichever its direction, and rows that tie on all keys in file order. */
  lemma NullsLastAndTiesByPosition(s: Snapshot, plan: Plan, i: nat, j: nat)
    requires i < j < |Answer(s, plan)|
    ensures Answer(s, plan)[i] < |s.rows| && Answer(s, plan)[j] < |s.rows|
    ensures var x, y := s.rows[Answer(s, plan)[i]], s.rows[Answer(s, plan)[j]];
      && CompareRows(plan.sort, x, y) != Greater
      && (CompareRows(plan.sort, x, y) == Same ==> Answer(s, plan)[i] < Answer(s, plan)[j])
      && (plan.sort != [] && Get(x, plan.sort[0].column) == Null ==> Get(y, plan.sort[0].column) == Null)
      && (CompareRows(plan.sort, x, y) != Same ==> exists k :: DecidedAt(plan.sort, k, x, y))
  {
    AnswerIsStrictlyOrdered(s, plan);
    assert Answer(s, plan)[i] in Answer(s, plan) && Answer(s, plan)[j] in Answer(s, plan);
    FirstDifferenceDecides(plan.sort, s.rows[Answer(s, plan)[i]], s.rows[Answer(s, plan)[j]]);
    var answer := Answer(s, plan);
    assert RowOrder(s.rows, plan.sort)(answer[i], answer[j]) && answer[i] != answer[j];
  }

  /** Whatever the engine does: a sorted listing of the selected rows is the answer. */
  lemma OnlyOneAnswer(s: Snapshot, plan: Plan, listing: seq<nat>)
    requires multiset(listing) == multiset(Selected(s, plan))
    requires SortedBy(RowOrder(s.rows, plan.sort), listing)
    ensures listing == Answer(s, plan)
  {
    var le := RowOrder(s.rows, plan.sort);
    SelectedArePositions(s, plan);
    RowOrderIsTotal(s.rows, plan.sort);
    SortSorts(le, Selected(s, plan), Positions(s.rows));
    SameMembers(listing, Selected(s, plan));
    SortedIsUnique(le, listing, Answer(s, plan), Positions(s.rows));
  }

  /** The answer is strictly ordered: sorted, every selected row once and no other. */
  lemma AnswerIsStrictlyOrdered(s: Snapshot, plan: Plan)
    ensures SortedBy(RowOrder(s.rows, plan.sort), Answer(s, plan)) && Distinct(Answer(s, plan))
    ensures forall i :: i in Answer(s, plan) <==> 0 <= i < |s.rows| && Passes(plan.filters, s.rows[i])
  {
    var answer, selected := Answer(s, plan), Selected(s, plan);
    SelectedArePositions(s, plan);
    RowOrderIsTotal(s.rows, plan.sort);
    SortSorts(RowOrder(s.rows, plan.sort), selected, Positions(s.rows));
    DistinctPermutation(selected, answer);
    forall i ensures i in answer <==> i in selected {
      assert i in Members(answer) <==> i in Members(selected);
    }
  }

  // ----- pages

  function Cut(s: seq<nat>, offset: nat, size: nat): seq<nat> {
    if offset >= |s| then []
    else if offset + size >= |s| then s[offset..]
    else s[offset..offset + size]
  }

  function RowAt(rows: seq<Row>, i: nat): Row {
    if i < |rows| then rows[i] else map[]
  }

  function ProjectAll(rows: seq<Row>, columns: seq<string>, positions: seq<nat>): (r: seq<seq<Cell>>)
    ensures |r| == |positions|
  {
    if positions == [] then []
    else [Project(RowAt(rows, positions[0]), columns)] + ProjectAll(rows, columns, positions[1..])
  }

  function Names(s: Snapshot, plan: Plan): seq<string> {
    if plan.columns.Some? then plan.columns.value else s.columns
  }

  function NamedColumns(plan: Plan): seq<string> {
    (if plan.columns.Some? then plan.columns.value else [])
    + seq(|plan.sort|, i requires 0 <= i < |plan.sort| => plan.sort[i].column)
    + seq(|plan.filters|, i requires 0 <= i < |plan.filters| => plan.filters[i].column)
  }

  /** The request names the column, to show, to sort by or to filter. */
  ghost predicate NamesColumn(plan: Plan, c: string) {
    || (plan.columns.Some? && c in plan.columns.value)
    || (exists k :: k in plan.sort && k.column == c)
    || (exists f :: f in plan.filters && f.column == c)
  }

  lemma NamedColumnsAre(plan: Plan, c: string)
    ensures c in NamedColumns(plan) <==> NamesColumn(plan, c)
  {
    var sorted := seq(|plan.sort|, i requires 0 <= i < |plan.sort| => plan.sort[i].column);
    var filtered := seq(|plan.filters|, i requires 0 <= i < |plan.filters| => plan.filters[i].column);
    if k :| k in plan.sort && k.column == c {
      var i :| 0 <= i < |plan.sort| && plan.sort[i] == k;
      assert sorted[i] == c;
    }
    if f :| f in plan.filters && f.column == c {
      var i :| 0 <= i < |plan.filters| && plan.filters[i] == f;
      assert filtered[i] == c;
    }
  }

  ghost predicate ShowsRow(row: Row, names: seq<string>, shown: seq<Cell>) {
    |shown| == |names| && forall j :: 0 <= j < |names| ==> shown[j] == Get(row, names[j])
  }

  lemma {:induction false} ProjectAllShows(rows: seq<Row>, columns: seq<string>, positions: seq<nat>, i: nat)
    requires i < |positions| && positions[i] < |rows|
    ensures ShowsRow(rows[positions[i]], columns, ProjectAll(rows, columns, positions)[i])
  {
    if i > 0 {
      ProjectAllShows(rows, columns, positions[1..], i - 1);
    }
  }

  /** A page shows the rows from its offset on in the order of the answer, as many as it may hold. */
  ghost predicate ShowsAnswer(s: Snapshot, plan: Plan, offset: nat, size: nat, shown: seq<seq<Cell>>) {
    var answer := Answer(s, plan);
    && |shown| == (if offset >= |answer| then 0 else if offset + size >= |answer| then |answer| - offset else size)
    && forall i :: 0 <= i < |shown| ==> ShowsRowAt(s, answer[offset + i], Names(s, plan), shown[i])
  }

  ghost predicate ShowsRowAt(s: Snapshot, position: nat, names: seq<string>, shown: seq<Cell>) {
    position < |s.rows| && ShowsRow(s.rows[position], names, shown)
  }

  lemma CutAt(answer: seq<nat>, offset: nat, size: nat)
    ensures var cut := Cut(answer, offset, size);
      && |cut| == (if offset >= |answer| then 0 else if offset + size >= |answer| then |answer| - offset else size)
      && forall i :: 0 <= i < |cut| ==> cut[i] == answer[offset + i]
  {
  }

  lemma PageShows(s: Snapshot, plan: Plan, offset: nat, size: nat)
    ensures ShowsAnswer(s, plan, offset, size, PageRows(s, plan, offset, size))
  {
    var answer, shown, names := Answer(s, plan), PageRows(s, plan, offset, size), Names(s, plan);
    var cut := Cut(answer, offset, size);
    CutAt(answer, offset, size);
    AnswerIsStrictlyOrdered(s, plan);
    forall i | 0 <= i < |shown| ensures ShowsRowAt(s, answer[offset + i], names, shown[i]) {
      assert cut[i] == answer[offset + i] && answer[offset + i] in answer;
      ProjectAllShows(s.rows, names, cut, i);
    }
  }

  /** `read_page`: the page, or nothing when the plan names a column the table lacks. */
  method ReadPage(s: Snapshot, plan: Plan) returns (page: Option<Page>)
    ensures page.None? <==> NamesUnknown(s, plan)
    ensures page.None? <==> exists c :: NamesColumn(plan, c) && c !in s.columns
    ensures page.Some? ==>
      && page.value.rows == PageRows(s, plan, plan.offset, plan.pageSize)
      && page.value.count == (if plan.count then Some(|Answer(s, plan)|) else None)
      && (page.value.hasMore <==> plan.offset + plan.pageSize < |Answer(s, plan)|)
  {
    forall c ensures c in NamedColumns(plan) <==> NamesColumn(plan, c) {
      NamedColumnsAre(plan, c);
    }
    if NamesUnknown(s, plan) {
      return None;
    }
    SelectedArePositions(s, plan);
    var selected := Selected(s, plan);
    var count := if plan.count then Some(|selected|) else None;
    var rows := PageRows(s, plan, plan.offset, plan.pageSize);
    // Whether one more row exists needs no order.
    var hasMore := |selected| > plan.offset + plan.pageSize;
    page := Some(Page(rows, count, hasMore));
  }

  /** The rows of one page: the answer, cut and projected. */
  function PageRows(s: Snapshot, plan: Plan, offset: nat, size: nat): seq<seq<Cell>> {
    ProjectAll(s.rows, Names(s, plan), Cut(Answer(s, plan), offset, size))
  }

  // ----- consecutive pages

  function Sum(sizes: seq<nat>): nat {
    if sizes == [] then 0 else sizes[0] + Sum(sizes[1..])
  }

  function Cutter(answer: seq<nat>): (nat, nat) -> seq<nat> {
    (offset: nat, size: nat) => Cut(answer, offset, size)
  }

  /** The page function of an answer that is cut by `cut`. */
  function Pager(rows: seq<Row>, columns: seq<string>, cut: (nat, nat) -> seq<nat>): (nat, nat) -> seq<seq<Cell>> {
    (offset: nat, size: nat) => ProjectAll(rows, columns, cut(offset, size))
  }

  function Glue<T>(page: (nat, nat) -> seq<T>, offset: nat, sizes: seq<nat>): seq<T>
    decreases |sizes|
  {
    if sizes == [] then [] else page(offset, sizes[0]) + Glue(page, offset + sizes[0], sizes[1..])
  }

  /** The rows of consecutive pages of the given sizes, one after the other. */
  function Consecutive(s: Snapshot, plan: Plan, offset: nat, sizes: seq<nat>): seq<seq<Cell>> {
    Glue(Pager(s.rows, Names(s, plan), Cutter(Answer(s, plan))), offset, sizes)
  }

  lemma CutInTwo(s: seq<nat>, offset: nat, a: nat, b: nat)
    ensures Cut(s, offset, a + b) == Cut(s, offset, a) + Cut(s, offset + a, b)
  {
  }

  lemma CutNothing(s: seq<nat>, offset: nat)
    ensures Cut(s, offset, 0) == []
  {
  }

  lemma {:induction false} ProjectConcatenation(rows: seq<Row>, columns: seq<string>, a: seq<nat>, b: seq<nat>)
    ensures ProjectAll(rows, columns, a + b) == ProjectAll(rows, columns, a) + ProjectAll(rows, columns, b)
  {
    if a == [] {
      assert a + b == b;
    } else {
      assert (a + b)[1..] == a[1..] + b;
      ProjectConcatenation(rows, columns, a[1..], b);
    }
  }

  ghost predicate TwoAreOne<T>(page: (nat, nat) -> seq<T>, offset: nat, a: nat, b: nat) {
    page(offset, a) + page(offset + a, b) == page(offset, a + b)
  }

  lemma {:induction false} GlueJoins<T>(page: (nat, nat) -> seq<T>, offset: nat, sizes: seq<nat>)
    requires forall o: nat :: page(o, 0) == []
    requires forall o: nat, a: nat, b: nat :: TwoAreOne(page, o, a, b)
    ensures Glue(page, offset, sizes) == page(offset, Sum(sizes))
    decreases |sizes|
  {
    if sizes != [] {
      GlueJoins(page, offset + sizes[0], sizes[1..]);
      assert TwoAreOne(page, offset, sizes[0], Sum(sizes[1..]));
    }
  }

  /** Consecutive pages, of whatever sizes, are one long page: no row is lost or repeated. */
  lemma PagesJoin(s: Snapshot, plan: Plan, offset: nat, sizes: seq<nat>)
    ensures Consecutive(s, plan, offset, sizes) == PageRows(s, plan, offset, Sum(sizes))
  {
    CutterGlues(s.rows, Names(s, plan), Answer(s, plan), offset, sizes);
  }

  lemma CutterGlues(rows: seq<Row>, columns: seq<string>, answer: seq<nat>, offset: nat, sizes: seq<nat>)
    ensures Glue(Pager(rows, columns, Cutter(answer)), offset, sizes)
         == ProjectAll(rows, columns, Cut(answer, offset, Sum(sizes)))
  {
    forall o: nat, a: nat, b: nat ensures Cutter(answer)(o, 0) == [] && TwoAreOne(Cutter(answer), o, a, b) {
      CutNothing(answer, o);
      CutInTwo(answer, o, a, b);
    }
    PagerGlues(rows, columns, Cutter(answer), offset, sizes);
  }

  lemma PagerGlues(rows: seq<Row>, columns: seq<string>, cut: (nat, nat) -> seq<nat>, offset: nat, sizes: seq<nat>)
    requires forall o: nat :: cut(o, 0) == []
    requires forall o: nat, a: nat, b: nat :: TwoAreOne(cut, o, a, b)
    ensures Glue(Pager(rows, columns, cut), offset, sizes) == ProjectAll(rows, columns, cut(offset, Sum(sizes)))
  {
    var page := Pager(rows, columns, cut);
    forall o: nat, a: nat, b: nat ensures page(o, 0) == [] && TwoAreOne(page, o, a, b) {
      assert cut(o, 0) == [] && TwoAreOne(cut, o, a, b);
      ProjectConcatenation(rows, columns, cut(o, a), cut(o + a, b));
    }
    GlueJoins(page, offset, sizes);
  }

  /** From the first page until one says there is no more, the pages are the whole filtered table in
      order, and their total length is the exact count. */
  lemma PagesAreTheWholeTable(s: Snapshot, plan: Plan, sizes: seq<nat>)
    requires !(Sum(sizes) < |Answer(s, plan)|)
    ensures Consecutive(s, plan, 0, sizes) == ProjectAll(s.rows, Names(s, plan), Answer(s, plan))
    ensures |Consecutive(s, plan, 0, sizes)| == |Selected(s, plan)|
  {
    PagesJoin(s, plan, 0, sizes);
    SelectedArePositions(s, plan);
    assert Cut(Answer(s, plan), 0, Sum(sizes)) == Answer(s, plan);
  }

  // ----- following the pages

  lemma AnswerIgnoresThePage(s: Snapshot, plan: Plan, offset: nat)
    ensures Answer(s, plan.(offset := offset)) == Answer(s, plan)
    ensures Names(s, plan.(offset := offset)) == Names(s, plan)
    ensures NamedColumns(plan.(offset := offset)) == NamedColumns(plan)
  {
  }

  lemma OneMorePage(rows: seq<Row>, columns: seq<string>, answer: seq<nat>, read: nat, size: nat)
    ensures ProjectAll(rows, columns, Cut(answer, 0, read)) + ProjectAll(rows, columns, Cut(answer, read, size))
            == ProjectAll(rows, columns, Cut(answer, 0, read + size))
  {
    var before, page := Cut(answer, 0, read), Cut(answer, read, size);
    CutInTwo(answer, 0, read, size);
    ProjectConcatenation(rows, columns, before, page);
  }

  lemma CutAll(answer: seq<nat>, size: nat)
    requires size >= |answer|
    ensures Cut(answer, 0, size) == answer
  {
  }

  predicate NamesUnknown(s: Snapshot, plan: Plan) {
    exists c :: c in NamedColumns(plan) && c !in s.columns
  }

  /** What is read is the answer's first `n` rows. */
  ghost predicate IsStart(rows: seq<Row>, columns: seq<string>, answer: seq<nat>, n: nat, read: seq<seq<Cell>>) {
    read == ProjectAll(rows, columns, Cut(answer, 0, n))
  }

  /** Reads one page more, at the offset that was reached. */
  method ReadOn(s: Snapshot, plan: Plan, offset: nat, read: seq<seq<Cell>>,
                ghost answer: seq<nat>, ghost names: seq<string>)
      returns (page: Option<Page>, more: seq<seq<Cell>>)
    requires answer == Answer(s, plan) && names == Names(s, plan) && IsStart(s.rows, names, answer, offset, read)
    ensures page.None? <==> NamesUnknown(s, plan)
    ensures page.Some? ==>
      && IsStart(s.rows, names, answer, offset + plan.pageSize, more)
      && (page.value.hasMore <==> offset + plan.pageSize < |answer|)
      && (page.value.hasMore ==> |page.value.rows| == plan.pageSize)
  {
    AnswerIgnoresThePage(s, plan, offset);
    page := ReadPage(s, plan.(offset := offset));
    more := read;
    if page.Some? {
      OneMorePage(s.rows, names, answer, offset, plan.pageSize);
      more := read + page.value.rows;
    }
  }

  /** A reader that starts at the first page and goes on at the next offset as long as a page says there
      is more gets the whole filtered table, in order. */
  method ReadAllPages(s: Snapshot, plan: Plan) returns (table: Option<seq<seq<Cell>>>)
    requires plan.pageSize >= 1
    ensures table.None? <==> NamesUnknown(s, plan)
    ensures table.Some? ==> table.value == ProjectAll(s.rows, Names(s, plan), Answer(s, plan))
  {
    ghost var answer, names := Answer(s, plan), Names(s, plan);
    CutNothing(answer, 0);
    var page, read := ReadOn(s, plan, 0, [], answer, names);
    if page == None {
      return None;
    }
    var offset := 0;
    while page.value.hasMore
      invariant page.Some?
      invariant page.value.hasMore <==> offset + plan.pageSize < |answer|
      invariant page.value.hasMore ==> |page.value.rows| == plan.pageSize
      invariant IsStart(s.rows, names, answer, offset + plan.pageSize, read)
      decreases |answer| - offset
    {
      // The next offset: past the rows that were returned.
      offset := offset + |page.value.rows|;
      page, read := ReadOn(s, plan, offset, read, answer, names);
    }
    CutAll(answer, offset + plan.pageSize);
    return Some(read);
  }
}
