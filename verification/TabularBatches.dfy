/**
 Records in batches: `_jsonl_batches` and `_json_batches`.

 Both hand over full batches while they read, and the rest at the end; a record that has to be
 refused ends the reading with the batches handed over so far.
 */
module TabularBatches {
  import opened Basics
  import opened PythonText
  import opened Chunks
  import opened JsonDecoder
  import opened TextLines
  import opened ArrayReading
  import JsonAccepted
  import T = JsonText

  type Batch = seq<Json>

  datatype Refusal = BadLine(number: nat) | NoLines | NotObjects | BadDocument(verdict: Verdict)

  /** The batches handed over, and why the content was refused, if it was. */
  datatype Ingested = Ingested(batches: seq<Batch>, refused: Option<Refusal>)

  function Flatten(batches: seq<Batch>): seq<Json> {
    if batches == [] then [] else Flatten(batches[..|batches| - 1]) + batches[|batches| - 1]
  }

  /** A batch is handed over as soon as it holds this many records; it holds one at least. */
  function BatchSize(batchRecords: int): (n: nat)
    ensures n >= 1 && n >= batchRecords && (n == 1 || n == batchRecords)
  {
    if batchRecords < 1 then 1 else batchRecords
  }

  ghost predicate AllFull(batches: seq<Batch>, batchRecords: int) {
    forall i :: 0 <= i < |batches| ==> |batches[i]| == BatchSize(batchRecords)
  }

  /** All records, in order; every batch but the last full, and none empty. */
  ghost predicate Complete(batches: seq<Batch>, records: seq<Json>, batchRecords: int) {
    && Flatten(batches) == records
    && (batches != [] ==> AllFull(batches[..|batches| - 1], batchRecords))
    && (batches != [] ==> 1 <= |batches[|batches| - 1]| <= BatchSize(batchRecords))
  }

  /** The full batches of the records read before the refusal; fewer than one batch is lost. */
  ghost predicate CutShort(batches: seq<Batch>, records: seq<Json>, batchRecords: int) {
    && AllFull(batches, batchRecords)
    && Flatten(batches) <= records
    && |records| < |Flatten(batches)| + BatchSize(batchRecords)
  }

  // ----- JSON Lines

  /** What the lines hold: the objects up to the first bad line, and the number of that line. */
  datatype LineRecords = LineRecords(records: seq<Json>, bad: Option<nat>)

  function IsObject(d: Decoded<Json>): bool {
    d.Ok? && d.value.Object?
  }

  /** What one line holds: nothing if it is blank, an object, or nothing acceptable. */
  function ReadOne(line: string, number: nat): LineRecords {
    var stripped := Strip(line);
    if stripped == "" then LineRecords([], None)
    else if !IsObject(Loads(stripped)) then LineRecords([], Some(number))
    else LineRecords([Loads(stripped).value], None)
  }

  /** What is read of some lines, and then of more unless one was refused. */
  function Then(a: LineRecords, b: LineRecords): LineRecords {
    if a.bad.Some? then a else LineRecords(a.records + b.records, b.bad)
  }

  function ReadEach(one: (string, nat) -> LineRecords, lines: seq<string>, number: nat): LineRecords
    decreases |lines|
  {
    if lines == [] then LineRecords([], None)
    else Then(one(lines[0], number), ReadEach(one, lines[1..], number + 1))
  }

  function ReadLines(lines: seq<string>, number: nat): LineRecords {
    ReadEach(ReadOne, lines, number)
  }

  /** The line is an object's text with white space around it. */
  ghost predicate IsObjectLine(line: string, v: Json) {
    exists before, d, after :: JsonAccepted.IsTextOf(Strip(line), before, d, after) && d.Obj? && T.Meaning(d) == v
  }

  /** A blank line counts for nothing but its number, an object's text for its meaning, and any other
      line is refused. */
  lemma LineIsRead(line: string, number: nat)
    ensures Strip(line) == "" ==> ReadLines([line], number) == LineRecords([], None)
    ensures forall v | IsObjectLine(line, v) :: Strip(line) != "" && ReadLines([line], number) == LineRecords([v], None)
    ensures Strip(line) != "" && (forall v :: !IsObjectLine(line, v)) ==>
              ReadLines([line], number) == LineRecords([], Some(number))
  {
    var stripped := Strip(line);
    OneLineAlone(line, number);
    forall v | IsObjectLine(line, v)
      ensures stripped != "" && ReadLines([line], number) == LineRecords([v], None)
    {
      ObjectLineIsLoaded(line, v);
    }
    if stripped != "" && IsObject(Loads(stripped)) {
      ObjectIsRead(line, Loads(stripped).value);
    }
  }

  lemma OneLineAlone(line: string, number: nat)
    ensures ReadLines([line], number) == ReadOne(line, number)
  {
    var one := ReadOne(line, number);
    assert ReadEach(ReadOne, [line], number) == Then(one, ReadEach(ReadOne, [], number + 1));
    assert one.records + [] == one.records;
  }

  lemma ObjectLineIsLoaded(line: string, v: Json)
    requires IsObjectLine(line, v)
    ensures Strip(line) != "" && Loads(Strip(line)) == Ok(v, "") && v.Object?
  {
    var before, d, after :|
      JsonAccepted.IsTextOf(Strip(line), before, d, after) && d.Obj? && T.Meaning(d) == v;
    JsonAccepted.DocumentIsLoaded(Strip(line), before, d, after);
  }

  lemma ObjectIsRead(line: string, v: Json)
    requires Loads(Strip(line)) == Ok(v, "") && v.Object?
    ensures IsObjectLine(line, v)
  {
    JsonAccepted.LoadsExactlyWhen(Strip(line), v);
    var before, d, after :| JsonAccepted.IsTextOf(Strip(line), before, d, after) && T.Meaning(d) == v;
    assert d.Obj?;
  }

  lemma ThenIsAssociative(a: LineRecords, b: LineRecords, c: LineRecords)
    ensures Then(a, Then(b, c)) == Then(Then(a, b), c)
  {
    Associative(a.records, b.records, c.records);
  }

  lemma NothingThen(b: LineRecords)
    ensures Then(LineRecords([], None), b) == b
  {
  }

  lemma {:induction false} EachInOrder(one: (string, nat) -> LineRecords, first: seq<string>, more: seq<string>, n: nat)
    ensures ReadEach(one, first + more, n) == Then(ReadEach(one, first, n), ReadEach(one, more, n + |first|))
    decreases |first|
  {
    if first == [] {
      assert first + more == more;
      NothingThen(ReadEach(one, more, n));
    } else {
      var rest := first[1..];
      assert (first + more)[1..] == rest + more;
      EachInOrder(one, rest, more, n + 1);
      ThenIsAssociative(one(first[0], n), ReadEach(one, rest, n + 1), ReadEach(one, more, n + |first|));
    }
  }

  /** Lines are read one after the other, up to the first one that is refused. */
  lemma LinesAreReadInOrder(first: seq<string>, more: seq<string>, number: nat)
    ensures ReadLines(first + more, number) == Then(ReadLines(first, number), ReadLines(more, number + |first|))
  {
    EachInOrder(ReadOne, first, more, number);
  }

  lemma FlattenOneMore(batches: seq<Batch>, batch: Batch)
    ensures Flatten(batches + [batch]) == Flatten(batches) + batch
  {
    assert (batches + [batch])[..|batches|] == batches;
  }

  lemma LastBatch(batches: seq<Batch>, batch: Batch, records: seq<Json>, batchRecords: int)
    requires AllFull(batches, batchRecords) && |batch| < BatchSize(batchRecords)
    requires Flatten(batches) + batch == records
    ensures Complete(if batch == [] then batches else batches + [batch], records, batchRecords)
    ensures CutShort(batches, records, batchRecords)
  {
    FlattenOneMore(batches, batch);
    assert (batches + [batch])[..|batches|] == batches;
  }

  /** The batch after a record, and the batches handed over. */
  method Collect(batches: seq<Batch>, batch: Batch, record: Json, batchRecords: int)
      returns (batches': seq<Batch>, batch': Batch)
    requires AllFull(batches, batchRecords) && |batch| < BatchSize(batchRecords)
    ensures AllFull(batches', batchRecords) && |batch'| < BatchSize(batchRecords)
    ensures Flatten(batches') + batch' == Flatten(batches) + batch + [record]
  {
    batches', batch' := batches, batch + [record];
    if |batch'| >= batchRecords {
      FlattenOneMore(batches, batch');
      batches', batch' := batches + [batch'], [];
    }
    Associative(Flatten(batches), batch, [record]);
  }

  method JsonlBatches(chunks: seq<string>, batchRecords: int) returns (result: Ingested)
    ensures BatchesOfLines(ReadLines(SplitLines(SPLITLINES, Join(chunks)), 1), result, batchRecords)
  {
    var lines := Lines(chunks);
    result := LineBatches(lines, batchRecords);
  }

  /** What the batches and the refusal say of the lines' records. */
  ghost predicate BatchesOfLines(all: LineRecords, result: Ingested, batchRecords: int) {
    match result.refused
    case None => all.bad == None && all.records != [] && Complete(result.batches, all.records, batchRecords)
    case Some(NoLines) => all == LineRecords([], None) && result.batches == []
    case Some(BadLine(n)) => all.bad == Some(n) && CutShort(result.batches, all.records, batchRecords)
    case _ => false
  }

  /** The record of a line; none if it is blank or not an object. */
  function RecordOf(line: string): Option<Json> {
    var stripped := Strip(line);
    if stripped != "" && IsObject(Loads(stripped)) then Some(Loads(stripped).value) else None
  }

  predicate IsBlank(line: string) {
    Strip(line) == ""
  }

  /** All records, with those of the lines read and those of the lines left. */
  ghost predicate ReadUpTo(all: LineRecords, records: seq<Json>, left: seq<string>, number: nat) {
    all == LineRecords(records + ReadLines(left, number).records, ReadLines(left, number).bad)
  }

  lemma OneLineRead(all: LineRecords, records: seq<Json>, left: seq<string>, number: nat)
    requires left != [] && ReadUpTo(all, records, left, number)
    ensures IsBlank(left[0]) ==> ReadUpTo(all, records, left[1..], number + 1)
    ensures !IsBlank(left[0]) && RecordOf(left[0]).Some? ==>
              ReadUpTo(all, records + [RecordOf(left[0]).value], left[1..], number + 1)
    ensures !IsBlank(left[0]) && RecordOf(left[0]).None? ==> all == LineRecords(records, Some(number))
  {
    if !IsBlank(left[0]) && RecordOf(left[0]).Some? {
      Associative(records, [RecordOf(left[0]).value], ReadLines(left[1..], number + 1).records);
    }
  }

  method ReadLine(line: string) returns (blank: bool, record: Option<Json>)
    ensures blank == IsBlank(line) && record == RecordOf(line)
  {
    var stripped := Strip(line);
    blank, record := stripped == "", None;
    if !blank {
      var parsed := Loads(stripped);
      if IsObject(parsed) {
        record := Some(parsed.value);
      }
    }
  }

  /** Batches handed over and the records waiting for the next one. */
  ghost predicate Gathered(batches: seq<Batch>, batch: Batch, records: seq<Json>, batchRecords: int) {
    AllFull(batches, batchRecords) && |batch| < BatchSize(batchRecords) && Flatten(batches) + batch == records
  }

  lemma RefusedAt(all: LineRecords, batches: seq<Batch>, batch: Batch, records: seq<Json>, n: nat, batchRecords: int)
    requires all == LineRecords(records, Some(n)) && Gathered(batches, batch, records, batchRecords)
    ensures BatchesOfLines(all, Ingested(batches, Some(BadLine(n))), batchRecords)
  {
    LastBatch(batches, batch, records, batchRecords);
  }

  lemma ReadToTheEnd(all: LineRecords, batches: seq<Batch>, batch: Batch, records: seq<Json>, batchRecords: int)
    requires all == LineRecords(records, None) && Gathered(batches, batch, records, batchRecords)
    ensures records != [] ==>
              BatchesOfLines(all, Ingested(if batch == [] then batches else batches + [batch], None), batchRecords)
    ensures records == [] ==> BatchesOfLines(all, Ingested(batches, Some(NoLines)), batchRecords)
  {
    LastBatch(batches, batch, records, batchRecords);
  }

  method CollectLine(batches: seq<Batch>, batch: Batch, record: Json, ghost records: seq<Json>, batchRecords: int)
      returns (batches': seq<Batch>, batch': Batch)
    requires Gathered(batches, batch, records, batchRecords)
    ensures Gathered(batches', batch', records + [record], batchRecords)
  {
    batches', batch' := Collect(batches, batch, record, batchRecords);
  }

  method LineBatches(lines: seq<string>, batchRecords: int) returns (result: Ingested)
    ensures BatchesOfLines(ReadLines(lines, 1), result, batchRecords)
  {
    ghost var all := ReadLines(lines, 1);
    var batches, batch, seen := [], [], false;
    ghost var records := [];
    var left, number := lines, 1;
    while left != []
      invariant ReadUpTo(all, records, left, number) && (seen <==> records != [])
      invariant Gathered(batches, batch, records, batchRecords)
    {
      OneLineRead(all, records, left, number);
      var blank, record := ReadLine(left[0]);
      if !blank {
        if record == None {
          RefusedAt(all, batches, batch, records, number, batchRecords);
          return Ingested(batches, Some(BadLine(number)));
        }
        batches, batch := CollectLine(batches, batch, record.value, records, batchRecords);
        records := records + [record.value];
        seen := true;
      }
      left, number := left[1..], number + 1;
    }
    assert records + [] == records;
    ReadToTheEnd(all, batches, batch, records, batchRecords);
    if !seen {
      return Ingested(batches, Some(NoLines));
    }
    result := Ingested(if batch == [] then batches else batches + [batch], None);
  }

  // ----- a JSON array

  /** The objects before the first element that is not one. */
  function LeadingObjects(elements: seq<Json>): (r: seq<Json>)
    ensures r <= elements
    ensures forall i :: 0 <= i < |r| ==> r[i].Object?
    ensures |r| < |elements| ==> !elements[|r|].Object?
  {
    if elements == [] || !elements[0].Object? then [] else [elements[0]] + LeadingObjects(elements[1..])
  }

  lemma {:induction false} LeadingObjectsOfPrefix(a: seq<Json>, b: seq<Json>)
    requires a <= b && LeadingObjects(a) != a
    ensures LeadingObjects(b) == LeadingObjects(a) && LeadingObjects(b) != b
  {
    if a[0].Object? {
      LeadingObjectsOfPrefix(a[1..], b[1..]);
    }
  }

  /** The outcome the batches have to agree with, as long as no element outgrew the limit. */
  ghost predicate BatchesOf(whole: Outcome, result: Ingested, batchRecords: int) {
    var records := LeadingObjects(whole.elements);
    match result.refused
    case None =>
      records == whole.elements && whole.verdict.Accepted? && Complete(result.batches, records, batchRecords)
    case Some(NotObjects) =>
      records != whole.elements && CutShort(result.batches, records, batchRecords)
    case Some(BadDocument(verdict)) =>
      && records == whole.elements && verdict == whole.verdict && !verdict.Accepted?
      && CutShort(result.batches, records, batchRecords)
    case _ => false
  }

  /** The loop over the elements: the full batches, the records waiting, and whether every element
      was an object. */
  method ObjectBatches(elements: seq<Json>, batchRecords: int)
      returns (batches: seq<Batch>, batch: Batch, objects: bool)
    ensures AllFull(batches, batchRecords) && |batch| < BatchSize(batchRecords)
    ensures Flatten(batches) + batch == LeadingObjects(elements)
    ensures objects <==> LeadingObjects(elements) == elements
  {
    batches, batch, objects := [], [], true;
    ghost var records := [];
    var left := elements;
    while left != []
      invariant elements == records + left
      invariant LeadingObjects(elements) == records + LeadingObjects(left)
      invariant AllFull(batches, batchRecords) && |batch| < BatchSize(batchRecords)
      invariant Flatten(batches) + batch == records
    {
      if !left[0].Object? {
        objects := false;
        return;
      }
      batches, batch := Collect(batches, batch, left[0], batchRecords);
      Associative(records, [left[0]], left[1..]);
      Associative(records, [left[0]], LeadingObjects(left[1..]));
      assert [left[0]] + left[1..] == left;
      records := records + [left[0]];
      left := left[1..];
    }
  }

  method JsonBatches(chunks: seq<string>, limit: nat, batchRecords: int) returns (result: Ingested)
    ensures result.refused == Some(BadDocument(TooLong)) || BatchesOf(ReadWhole(Join(chunks)), result, batchRecords)
    ensures |Join(chunks)| <= limit
         || (ReadWhole(Join(chunks)).verdict.Accepted? && ArrayFits(Join(chunks), limit))
      ==> BatchesOf(ReadWhole(Join(chunks)), result, batchRecords)
  {
    var read := ReadChunks(chunks, limit);
    var batches, batch, objects := ObjectBatches(read.elements, batchRecords);
    ghost var records := LeadingObjects(read.elements);
    LastBatch(batches, batch, records, batchRecords);
    if !objects {
      LeadingObjectsOfPrefix(read.elements, ReadWhole(Join(chunks)).elements);
      return Ingested(batches, Some(NotObjects));
    }
    if !read.verdict.Accepted? {
      return Ingested(batches, Some(BadDocument(read.verdict)));
    }
    result := Ingested(if batch == [] then batches else batches + [batch], None);
  }
}
