/**
 The `canonical-json-sort-v1` checksum: the serialised records sorted, joined as a JSON array and
 hashed. A file larger than memory is sorted in runs that are spilled and merged.

 SHA-256 is a parameter.
 */
module SortedChecksums {
  import opened Chunks
  import opened RecordFiles
  import opened Sorting
  import opened TextLines
  import T = JsonText

  // ----- the order of strings

  /** `a <= b` of Python strings: by code point, the shorter first. */
  predicate LexLe(a: string, b: string) {
    if a == "" then true
    else if b == "" then false
    else if a[0] == b[0] then LexLe(a[1..], b[1..])
    else a[0] < b[0]
  }

  lemma {:induction false} LexTotal(a: string, b: string)
    ensures LexLe(a, b) || LexLe(b, a)
    ensures LexLe(a, b) && LexLe(b, a) ==> a == b
  {
    if a != "" && b != "" && a[0] == b[0] {
      LexTotal(a[1..], b[1..]);
      assert a == [a[0]] + a[1..] && b == [b[0]] + b[1..];
    }
  }

  lemma {:induction false} LexTransitive(a: string, b: string, c: string)
    requires LexLe(a, b) && LexLe(b, c)
    ensures LexLe(a, c)
  {
    if a != "" && a[0] == b[0] == c[0] {
      LexTransitive(a[1..], b[1..], c[1..]);
    }
  }

  lemma LexIsTotalOrder(all: set<string>)
    ensures TotalOrderOn(LexLe, all)
  {
    forall x, y ensures LexLe(x, y) || LexLe(y, x) {
      LexTotal(x, y);
    }
    forall x, y | LexLe(x, y) && LexLe(y, x) ensures x == y {
      LexTotal(x, y);
    }
    forall x, y, z | LexLe(x, y) && LexLe(y, z) ensures LexLe(x, z) {
      LexTransitive(x, y, z);
    }
  }

  /** The strings agree up to some place, and there `a` ends or has the smaller character. */
  ghost predicate ComesFirstAt(a: string, b: string, k: int) {
    && 0 <= k <= |a| && k <= |b| && (forall i :: 0 <= i < k ==> a[i] == b[i])
    && (k == |a| || (k < |b| && a[k] < b[k]))
  }

  lemma {:induction false} FirstDifferenceDecides(a: string, b: string)
    ensures LexLe(a, b) <==> exists k :: ComesFirstAt(a, b, k)
  {
    if a == "" {
      assert ComesFirstAt(a, b, 0);
    } else if b != "" && a[0] == b[0] {
      FirstDifferenceDecides(a[1..], b[1..]);
      if k :| ComesFirstAt(a[1..], b[1..], k) {
        assert forall i :: 0 < i < k + 1 ==> a[i] == a[1..][i - 1] && b[i] == b[1..][i - 1];
        assert ComesFirstAt(a, b, k + 1);
      }
      if k :| ComesFirstAt(a, b, k) {
        assert forall i :: 0 <= i < k - 1 ==> a[1..][i] == a[i + 1] && b[1..][i] == b[i + 1];
        assert ComesFirstAt(a[1..], b[1..], k - 1);
      }
    } else if b != "" && a[0] < b[0] {
      assert ComesFirstAt(a, b, 0);
    }
  }

  function SortLines(lines: seq<string>): seq<string> {
    Sort(LexLe, lines)
  }

  // ----- the specification

  function Commas(lines: seq<string>): string {
    if lines == [] then ""
    else if |lines| == 1 then lines[0]
    else Commas(lines[..|lines| - 1]) + "," + lines[|lines| - 1]
  }

  /** What is hashed: a JSON array of the lines. */
  function Payload(lines: seq<string>): string {
    "[" + Commas(lines) + "]"
  }

  lemma {:induction false} CommasFromTheFront(line: string, more: seq<string>)
    requires more != []
    ensures Commas([line] + more) == line + "," + Commas(more)
  {
    var all, n := [line] + more, |more| - 1;
    if n > 0 {
      assert all[..|all| - 1] == [line] + more[..n];
      CommasFromTheFront(line, more[..n]);
      assert (line + "," + Commas(more[..n])) + "," + more[n] == line + "," + (Commas(more[..n]) + "," + more[n]);
    } else {
      assert all[..1] == [line];
    }
  }

  lemma {:induction false} CommasAreItems(items: seq<T.Item>, lines: seq<string>)
    requires items != [] && |items| == |lines|
    requires forall i :: 0 <= i < |items| ==> lines[i] == T.ShowItem(items[i])
    ensures Commas(lines) == T.ShowItems(items)
  {
    if |items| > 1 {
      assert lines == [lines[0]] + lines[1..];
      assert forall i :: 0 <= i < |items| - 1 ==> lines[1..][i] == T.ShowItem(items[1..][i]);
      CommasAreItems(items[1..], lines[1..]);
      CommasFromTheFront(lines[0], lines[1..]);
    }
  }

  /** What is hashed is the text of the array whose items the lines are the texts of. */
  lemma PayloadIsAnArray(items: seq<T.Item>, lines: seq<string>)
    requires |items| == |lines| && forall i :: 0 <= i < |items| ==> lines[i] == T.ShowItem(items[i])
    ensures Payload(lines) == T.Show(T.Arr("", items))
  {
    if items != [] {
      CommasAreItems(items, lines);
    }
  }

  /** `compute_data_checksum`. */
  function DataChecksum<R>(sha: string -> string, dump: R -> RecordLine, records: seq<R>): string {
    sha(Payload(SortLines(LinesOf(dump, records))))
  }

  /** It does not depend on the order of the records. */
  lemma DataChecksumOfPermutation<R>(sha: string -> string, dump: R -> RecordLine, a: seq<R>, b: seq<R>)
    requires multiset(LinesOf(dump, a)) == multiset(LinesOf(dump, b))
    ensures DataChecksum(sha, dump, a) == DataChecksum(sha, dump, b)
  {
    LexIsTotalOrder(Sorting.Members(LinesOf(dump, a)));
    SortOfPermutation(LexLe, LinesOf(dump, a), LinesOf(dump, b));
  }

  // ----- merging runs

  /** Everything still in the streams. */
  ghost function Bag(streams: seq<seq<string>>): multiset<string> {
    if streams == [] then multiset{} else multiset(streams[0]) + Bag(streams[1..])
  }

  ghost predicate AllSorted(streams: seq<seq<string>>) {
    forall i :: 0 <= i < |streams| ==> SortedBy(LexLe, streams[i])
  }

  lemma {:induction false} BagOneLess(streams: seq<seq<string>>, i: nat)
    requires i < |streams| && streams[i] != []
    ensures Bag(streams) == Bag(Taken(streams, i)) + multiset{streams[i][0]}
  {
    if i == 0 {
      assert streams[0] == [streams[0][0]] + streams[0][1..];
    } else {
      BagOneLess(streams[1..], i - 1);
      assert streams[i := streams[i][1..]][1..] == streams[1..][i - 1 := streams[i][1..]];
    }
  }

  lemma {:induction false} BagOneMore(streams: seq<seq<string>>, stream: seq<string>)
    ensures Bag(streams + [stream]) == Bag(streams) + multiset(stream)
  {
    if streams != [] {
      assert (streams + [stream])[1..] == streams[1..] + [stream];
      BagOneMore(streams[1..], stream);
    }
  }

  lemma {:induction false} InBag(streams: seq<seq<string>>, x: string)
    requires x in Bag(streams)
    ensures exists i :: 0 <= i < |streams| && x in streams[i]
  {
    if x in streams[0] {
    } else {
      InBag(streams[1..], x);
      var j :| 0 <= j < |streams[1..]| && x in streams[1..][j];
      assert streams[j + 1] == streams[1..][j];
    }
  }

  ghost predicate AllEmpty(streams: seq<seq<string>>) {
    forall i :: 0 <= i < |streams| ==> streams[i] == []
  }

  ghost predicate IsLeastHead(streams: seq<seq<string>>, least: nat) {
    && least < |streams| && streams[least] != []
    && forall i :: 0 <= i < |streams| && streams[i] != [] ==> LexLe(streams[least][0], streams[i][0])
  }

  /** The first stream whose head is least; the number of streams when all are empty. */
  method LeastHead(streams: seq<seq<string>>) returns (least: nat)
    ensures (least == |streams| && AllEmpty(streams)) || IsLeastHead(streams, least)
  {
    least := |streams|;
    var i := 0;
    while i < |streams|
      invariant i <= |streams|
      invariant (least == |streams| && AllEmpty(streams[..i])) || IsLeastHead(streams[..i], least)
    {
      if streams[i] != [] {
        if least == |streams| {
          LexTotal(streams[i][0], streams[i][0]);
          least := i;
        } else if !LexLe(streams[least][0], streams[i][0]) {
          NewLeast(streams, least, i);
          least := i;
        }
      }
      assert streams[..i + 1] == streams[..i] + [streams[i]];
      i := i + 1;
    }
    assert streams[..i] == streams;
  }

  lemma NewLeast(streams: seq<seq<string>>, least: nat, i: nat)
    requires i < |streams| && IsLeastHead(streams[..i], least) && streams[i] != []
    requires !LexLe(streams[least][0], streams[i][0])
    ensures IsLeastHead(streams[..i + 1], i)
  {
    LexTotal(streams[least][0], streams[i][0]);
    LexTotal(streams[i][0], streams[i][0]);
    forall j | 0 <= j < i && streams[j] != [] ensures LexLe(streams[i][0], streams[j][0]) {
      LexTransitive(streams[i][0], streams[least][0], streams[j][0]);
    }
  }

  lemma LeastOfAll(streams: seq<seq<string>>, least: nat)
    requires AllSorted(streams) && IsLeastHead(streams, least)
    ensures forall x :: x in Bag(streams) ==> LexLe(streams[least][0], x)
  {
    forall x | x in Bag(streams) ensures LexLe(streams[least][0], x) {
      InBag(streams, x);
      var i :| 0 <= i < |streams| && x in streams[i];
      LexIsTotalOrder(Sorting.Members(streams[i]));
      FirstIsLeast(LexLe, streams[i], x, Sorting.Members(streams[i]));
      LexTransitive(streams[least][0], streams[i][0], x);
    }
  }

  lemma {:induction false} EmptyBag(streams: seq<seq<string>>)
    requires AllEmpty(streams)
    ensures Bag(streams) == multiset{}
  {
    if streams != [] {
      EmptyBag(streams[1..]);
    }
  }

  ghost predicate Below(merged: seq<string>, bag: multiset<string>) {
    forall x, y :: x in merged && y in bag ==> LexLe(x, y)
  }

  lemma TakeLeast(merged: seq<string>, streams: seq<seq<string>>, least: nat)
    requires AllSorted(streams) && IsLeastHead(streams, least)
    requires SortedBy(LexLe, merged) && Below(merged, Bag(streams))
    ensures AllSorted(Taken(streams, least))
    ensures Bag(streams) == Bag(Taken(streams, least)) + multiset{streams[least][0]}
    ensures SortedBy(LexLe, merged + [streams[least][0]])
    ensures Below(merged + [streams[least][0]], Bag(Taken(streams, least)))
  {
    LeastOfAll(streams, least);
    BagOneLess(streams, least);
    var h, rest := streams[least][0], Bag(Taken(streams, least));
    assert h in Bag(streams);
    forall i | 0 <= i < |merged| ensures LexLe(merged[i], h) {
      assert merged[i] in merged;
    }
    forall x, y | x in merged + [h] && y in rest ensures LexLe(x, y) {
      assert y in Bag(streams);
    }
  }

  /** The streams without the head of one of them. */
  function Taken(streams: seq<seq<string>>, i: nat): (r: seq<seq<string>>)
    requires i < |streams| && streams[i] != []
  {
    streams[i := streams[i][1..]]
  }

  /** `heapq.merge`. */
  method Merge(streams: seq<seq<string>>) returns (merged: seq<string>)
    requires AllSorted(streams)
    ensures SortedBy(LexLe, merged) && multiset(merged) == Bag(streams)
  {
    merged := [];
    var left := streams;
    var least: nat := LeastHead(left);
    while least < |left|
      invariant AllSorted(left)
      invariant SortedBy(LexLe, merged) && Below(merged, Bag(left))
      invariant multiset(merged) + Bag(left) == Bag(streams)
      invariant (least == |left| && AllEmpty(left)) || IsLeastHead(left, least)
      decreases |Bag(left)|
    {
      TakeLeast(merged, left, least);
      merged := merged + [left[least][0]];
      left := Taken(left, least);
      least := LeastHead(left);
    }
    EmptyBag(left);
  }

  // ----- runs

  /** `_write_run`: a sorted run, as the text of its file. */
  method WriteRun(lines: seq<string>) returns (run: string)
    requires forall line :: line in lines ==> IsRecordLine(line)
    ensures SplitLines(FILE_BREAKS, run) == SortLines(lines)
  {
    var sorted := SortLines(lines);
    forall line | line in sorted ensures IsRecordLine(line) {
      assert line in multiset(sorted);
    }
    RenderRead(sorted);
    run := "";
    var left := sorted;
    while left != []
      invariant run + Render(left) == Render(sorted)
    {
      Associative(run, left[0] + "\n", Render(left[1..]));
      run := run + (left[0] + "\n");
      left := left[1..];
    }
    assert run + [] == run;
  }

  function Streams(runs: seq<string>): seq<seq<string>> {
    if runs == [] then [] else [SplitLines(FILE_BREAKS, runs[0])] + Streams(runs[1..])
  }

  lemma {:induction false} StreamsOneMore(runs: seq<string>, run: string)
    ensures Streams(runs + [run]) == Streams(runs) + [SplitLines(FILE_BREAKS, run)]
  {
    if runs != [] {
      assert (runs + [run])[1..] == runs[1..] + [run];
      StreamsOneMore(runs[1..], run);
    }
  }

  /** All lines: spilled, waiting and not read yet. */
  ghost function Held(runs: seq<string>, chunk: seq<string>, left: seq<string>): multiset<string> {
    Bag(Streams(runs)) + multiset(chunk) + multiset(left)
  }

  lemma RunAdded(runs: seq<string>, run: string, chunk: seq<string>, left: seq<string>)
    requires AllSorted(Streams(runs)) && SplitLines(FILE_BREAKS, run) == SortLines(chunk)
    ensures AllSorted(Streams(runs + [run]))
    ensures Held(runs + [run], [], left) == Held(runs, chunk, left)
  {
    StreamsOneMore(runs, run);
    BagOneMore(Streams(runs), SortLines(chunk));
    SortedRun(chunk);
  }

  lemma SortedRun(chunk: seq<string>)
    ensures SortedBy(LexLe, SortLines(chunk)) && multiset(SortLines(chunk)) == multiset(chunk)
  {
    LexIsTotalOrder(Sorting.Members(chunk));
    SortSorts(LexLe, chunk, Sorting.Members(chunk));
  }

  lemma NextLine(runs: seq<string>, chunk: seq<string>, left: seq<string>)
    requires left != []
    ensures Held(runs, chunk + [left[0]], left[1..]) == Held(runs, chunk, left)
  {
    assert left == [left[0]] + left[1..];
  }

  /** The file's lines in sorted runs of about `runBytes` characters; the lines left over when no
      run was full are handed back. */
  method SpillRuns(lines: seq<string>, runBytes: int) returns (runs: seq<string>, chunk: seq<string>)
    requires forall line :: line in lines ==> IsRecordLine(line)
    ensures AllSorted(Streams(runs))
    ensures Held(runs, chunk, []) == multiset(lines)
    ensures runs == [] || chunk == []
  {
    runs, chunk := [], [];
    var size := 0;
    var left := lines;
    while left != []
      invariant AllSorted(Streams(runs))
      invariant Held(runs, chunk, left) == multiset(lines)
      invariant forall line :: line in left ==> IsRecordLine(line)
      invariant forall line :: line in chunk ==> IsRecordLine(line)
    {
      NextLine(runs, chunk, left);
      chunk := chunk + [left[0]];
      size := size + |left[0]|;
      left := left[1..];
      if size >= runBytes {
        var run := WriteRun(chunk);
        RunAdded(runs, run, chunk, left);
        runs, chunk, size := runs + [run], [], 0;
      }
    }
    if runs != [] && chunk != [] {
      var run := WriteRun(chunk);
      RunAdded(runs, run, chunk, []);
      runs, chunk := runs + [run], [];
    }
  }

  lemma OnlyOneOrder(ordered: seq<string>, lines: seq<string>)
    requires SortedBy(LexLe, ordered) && multiset(ordered) == multiset(lines)
    ensures ordered == SortLines(lines)
  {
    LexIsTotalOrder(Sorting.Members(lines));
    SortSorts(LexLe, lines, Sorting.Members(lines));
    SameMembers(ordered, lines);
    SortedIsUnique(LexLe, ordered, SortLines(lines), Sorting.Members(lines));
  }

  /** What the digest is updated with, piece by piece. */
  method Feed(ordered: seq<string>) returns (payload: string)
    ensures payload == Payload(ordered)
  {
    payload := "[";
    var position := 0;
    while position < |ordered|
      invariant position <= |ordered|
      invariant payload == "[" + Commas(ordered[..position])
    {
      assert ordered[..position + 1][..position] == ordered[..position];
      if position > 0 {
        payload := payload + ",";
      }
      payload := payload + ordered[position];
      position := position + 1;
    }
    assert ordered[..position] == ordered;
    payload := payload + "]";
  }

  /** `compute_data_checksum_from_jsonl`: the checksum of a file's lines, whatever the runs. */
  method FileChecksum(sha: string -> string, content: string, runBytes: int) returns (hex: string)
    ensures hex == sha(Payload(SortLines(RecordLines(content))))
  {
    var lines := RecordLines(content);
    ReadLinesAreRecordLines(content);
    var runs, chunk := SpillRuns(lines, runBytes);
    var ordered;
    if runs == [] {
      ordered := SortLines(chunk);
      LexIsTotalOrder(Sorting.Members(chunk));
      SortSorts(LexLe, chunk, Sorting.Members(chunk));
    } else {
      ordered := Merge(Streams(runs));
    }
    OnlyOneOrder(ordered, lines);
    var payload := Feed(ordered);
    hex := sha(payload);
  }

  /** The file of some records has their checksum, in whatever order either lists them. */
  lemma FileChecksumIsDataChecksum<R>(sha: string -> string, dump: R -> RecordLine, written: seq<R>, records: seq<R>)
    requires multiset(LinesOf(dump, written)) == multiset(LinesOf(dump, records))
    ensures sha(Payload(SortLines(RecordLines(Render(LinesOf(dump, written)))))) == DataChecksum(sha, dump, records)
  {
    RenderRead(LinesOf(dump, written));
    DataChecksumOfPermutation(sha, dump, written, records);
  }
}
