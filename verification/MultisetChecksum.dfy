/**
 The `canonical-multiset-v2` checksum: one number per record, multiplied modulo
 `2**3072 - 1103717` (a modulus chosen for MuHash3072), in any order.

 SHAKE-256 and SHA-256 are parameters: all that is used of the first is that a digest of 384 bytes
 is a number below `2**3072`, and nothing of the second.
 */
module MultisetChecksums {
  import opened Basics
  import opened Chunks
  import opened FoldArithmetic
  import opened RecordFiles
  import opened TextLines

  const ELEMENT_BITS: nat := 3072
  const FOLD: nat := 1103717

  lemma {:induction false} Pow2Grows(m: nat, n: nat)
    requires m <= n
    ensures Pow2(m) <= Pow2(n)
  {
    if m < n {
      Pow2Grows(m, n - 1);
    }
  }

  lemma BaseIsLarge(bits: nat)
    requires bits >= 48
    ensures Pow2(bits) >= 0x1_0000_0000_0000
  {
    assert Pow2(12) == 0x1000;
    assert Pow2(24) == 0x100_0000;
    assert Pow2(36) == 0x10_0000_0000;
    assert Pow2(48) == 0x1_0000_0000_0000;
    Pow2Grows(48, bits);
  }

  /** The base of the checksum, `2**3072`, is large enough for everything below, which asks no
      more of a base `b`. */
  lemma TheBaseFits()
    ensures Small(FOLD, Pow2(ELEMENT_BITS))
  {
    BaseIsLarge(ELEMENT_BITS);
  }

  function Modulus(b: nat): (m: nat)
    requires Small(FOLD, b)
    ensures 1 < m < b < 2 * m
  {
    b - FOLD
  }

  /** SHAKE-256 of a line, 384 bytes of it, read as a number. */
  ghost predicate DigestsBelow(shake: string -> nat, b: nat) {
    Small(FOLD, b) && forall line :: shake(line) < b
  }

  // ----- the specification: `%` after every multiplication

  /** What a line is worth; a zero would erase the product, so it counts as one. */
  function Factor(b: nat, shake: string -> nat, line: string): (n: nat)
    requires Small(FOLD, b)
    ensures 1 <= n < Modulus(b)
  {
    var v := shake(line) % Modulus(b);
    if v == 0 then 1 else v
  }

  function Product(b: nat, shake: string -> nat, lines: seq<string>): (p: nat)
    requires Small(FOLD, b)
    ensures p < Modulus(b)
  {
    if lines == [] then 1
    else (Product(b, shake, lines[..|lines| - 1]) * Factor(b, shake, lines[|lines| - 1])) % Modulus(b)
  }

  lemma ProductOneMore(b: nat, shake: string -> nat, lines: seq<string>, line: string)
    requires Small(FOLD, b)
    ensures Product(b, shake, lines + [line]) == (Product(b, shake, lines) * Factor(b, shake, line)) % Modulus(b)
  {
    assert (lines + [line])[..|lines|] == lines;
  }

  /** The product of the digests as they are; one that is a multiple of the modulus does not count. */
  function DigestProduct(m: nat, shake: string -> nat, lines: seq<string>): nat
    requires m > 0
  {
    if lines == [] then 1
    else
      var n := |lines| - 1;
      DigestProduct(m, shake, lines[..n]) * (if shake(lines[n]) % m == 0 then 1 else shake(lines[n]))
  }

  lemma ReduceBoth(x: nat, v: nat, m: nat)
    requires m > 0
    ensures ((x % m) * (v % m)) % m == (x * v) % m
  {
    ReduceFactor(x, v % m, m);
    ReduceFactor(v, x, m);
    assert x * (v % m) == (v % m) * x && x * v == v * x;
  }

  /** Reducing on the way makes no difference to the product of the digests. */
  lemma {:induction false} ProductOfDigests(b: nat, shake: string -> nat, lines: seq<string>)
    requires Small(FOLD, b)
    ensures Product(b, shake, lines) == DigestProduct(Modulus(b), shake, lines) % Modulus(b)
  {
    var m := Modulus(b);
    if lines == [] {
      SubtractOnce(1, m);
    } else {
      var n := |lines| - 1;
      var v, before := shake(lines[n]), DigestProduct(m, shake, lines[..n]);
      ProductOfDigests(b, shake, lines[..n]);
      if v % m == 0 {
        assert before * 1 == before && (before % m) * 1 == before % m;
        SubtractOnce(before % m, m);
      } else {
        ReduceBoth(before, v, m);
      }
    }
  }

  /** `_reference_v2`: the plain form, with a division after every factor. */
  method ReferenceV2(b: nat, shake: string -> nat, sha: (nat, nat) -> string, lines: seq<string>) returns (hex: string)
    requires DigestsBelow(shake, b)
    ensures hex == sha(|lines|, Product(b, shake, lines))
  {
    var product, count := 1, 0;
    while count < |lines|
      invariant count <= |lines| && product == Product(b, shake, lines[..count])
    {
      assert lines[..count + 1] == lines[..count] + [lines[count]];
      ProductOneMore(b, shake, lines[..count], lines[count]);
      var v := shake(lines[count]) % Modulus(b);
      product := (product * (if v == 0 then 1 else v)) % Modulus(b);
      count := count + 1;
    }
    assert lines[..count] == lines;
    hex := sha(count, product);
  }

  // ----- the checksum

  class MultisetChecksum {
    const b: nat
    const shake: string -> nat
    var product: nat
    var count: nat
    ghost var lines: seq<string>

    /** The running product is below the base, not yet below the modulus. */
    ghost predicate Valid()
      reads this
    {
      && DigestsBelow(shake, b)
      && product < b
      && product % Modulus(b) == Product(b, shake, lines)
      && count == |lines|
    }

    constructor (b: nat, shake: string -> nat)
      requires DigestsBelow(shake, b)
      ensures Valid() && lines == [] && this.shake == shake && this.b == b
    {
      this.b, this.shake := b, shake;
      product, count, lines := 1, 0, [];
      new;
      SubtractOnce(1, Modulus(b));
    }

    /** Folds in one line. The product is reduced without a division, in at most three passes. */
    method AddLine(line: string) returns (ghost passes: nat)
      requires Valid()
      modifies this
      ensures Valid() && lines == old(lines) + [line]
      ensures passes <= 3
    {
      var value := shake(line);
      SubtractOnce(value, Modulus(b));
      if value >= Modulus(b) {
        value := value - Modulus(b);
      }
      var factor := if value == 0 then 1 else value;
      ReduceFactor(product, factor, Modulus(b));
      ProductOneMore(b, shake, lines, line);
      product, passes := Reduce(product, factor, b, FOLD);
      count := count + 1;
      lines := lines + [line];
    }

    method Hexdigest(sha: (nat, nat) -> string) returns (hex: string)
      requires Valid()
      ensures hex == sha(|lines|, Product(b, shake, lines))
    {
      SubtractOnce(product, Modulus(b));
      var p := product;
      if p >= Modulus(b) {
        p := p - Modulus(b);
      }
      hex := sha(count, p);
    }
  }

  // ----- order does not matter

  /** Folding two lists one after the other multiplies their products. */
  lemma {:induction false} ProductOfConcatenation(b: nat, shake: string -> nat, left: seq<string>, right: seq<string>)
    requires Small(FOLD, b)
    ensures Product(b, shake, left + right) == (Product(b, shake, left) * Product(b, shake, right)) % Modulus(b)
  {
    var m := Modulus(b);
    if right == [] {
      assert left + right == left;
      SubtractOnce(Product(b, shake, left), m);
    } else {
      var last, init := right[|right| - 1], right[..|right| - 1];
      assert left + right == (left + init) + [last] && right == init + [last];
      ProductOfConcatenation(b, shake, left, init);
      ProductOneMore(b, shake, left + init, last);
      ProductOneMore(b, shake, init, last);
      ModRotate(Product(b, shake, left), Product(b, shake, init), Factor(b, shake, last), m);
    }
  }

  lemma MoveToEnd(b: nat, shake: string -> nat, before: seq<string>, x: string, after: seq<string>)
    requires Small(FOLD, b)
    ensures Product(b, shake, before + [x] + after) == Product(b, shake, before + after + [x])
  {
    ProductOfConcatenation(b, shake, before + [x], after);
    ProductOneMore(b, shake, before, x);
    ProductOneMore(b, shake, before + after, x);
    ProductOfConcatenation(b, shake, before, after);
    ModRotate(Product(b, shake, before), Factor(b, shake, x), Product(b, shake, after), Modulus(b));
  }

  /** The product is the same for every permutation of the lines. */
  lemma {:induction false} ProductOfPermutation(b: nat, shake: string -> nat, left: seq<string>, right: seq<string>)
    requires Small(FOLD, b) && multiset(left) == multiset(right)
    ensures Product(b, shake, left) == Product(b, shake, right)
  {
    if left == [] {
      assert |multiset(right)| == 0;
    } else {
      var x, init := left[|left| - 1], left[..|left| - 1];
      assert left == init + [x];
      assert x in multiset(right);
      var i :| 0 <= i < |right| && right[i] == x;
      var before, after := right[..i], right[i + 1..];
      assert right == before + [x] + after;
      assert multiset(init) == multiset(left) - multiset{x};
      assert multiset(right) == multiset(before) + multiset{x} + multiset(after);
      ProductOfPermutation(b, shake, init, before + after);
      MoveToEnd(b, shake, before, x, after);
      ProductOneMore(b, shake, before + after, x);
      ProductOneMore(b, shake, init, x);
    }
  }

  // ----- the two forms

  /** `multiset_checksum`: the checksum of records. */
  method ChecksumOfRecords<R>(b: nat, shake: string -> nat, sha: (nat, nat) -> string,
                              dump: R -> RecordLine, records: seq<R>)
      returns (hex: string)
    requires DigestsBelow(shake, b)
    ensures hex == sha(|records|, Product(b, shake, LinesOf(dump, records)))
  {
    var checksum := new MultisetChecksum(b, shake);
    var left := records;
    assert LinesOf(dump, records) == [] + LinesOf(dump, left);
    while left != []
      invariant checksum.Valid() && checksum.shake == shake && checksum.b == b && fresh(checksum)
      invariant checksum.lines + LinesOf(dump, left) == LinesOf(dump, records)
    {
      ghost var done := checksum.lines;
      var _ := checksum.AddLine(dump(left[0]));
      Associative(done, [dump(left[0])], LinesOf(dump, left[1..]));
      left := left[1..];
    }
    assert checksum.lines == LinesOf(dump, records) by {
      assert checksum.lines + [] == checksum.lines;
    }
    hex := checksum.Hexdigest(sha);
  }

  /** `multiset_checksum_of_jsonl`: the checksum of a file, in one pass. */
  method ChecksumOfFile(b: nat, shake: string -> nat, sha: (nat, nat) -> string, content: string) returns (hex: string)
    requires DigestsBelow(shake, b)
    ensures hex == sha(|RecordLines(content)|, Product(b, shake, RecordLines(content)))
  {
    var checksum := new MultisetChecksum(b, shake);
    var left := SplitLines(FILE_BREAKS, content);
    while left != []
      invariant checksum.Valid() && checksum.shake == shake && checksum.b == b && fresh(checksum)
      invariant checksum.lines + NonEmpty(left) == RecordLines(content)
    {
      ghost var done := checksum.lines;
      if left[0] != "" {
        var _ := checksum.AddLine(left[0]);
        Associative(done, [left[0]], NonEmpty(left[1..]));
      } else {
        assert [] + NonEmpty(left[1..]) == NonEmpty(left[1..]);
      }
      left := left[1..];
    }
    assert checksum.lines == RecordLines(content) by {
      assert checksum.lines + [] == checksum.lines;
    }
    hex := checksum.Hexdigest(sha);
  }

  /** The file of some records has their checksum, in whatever order either lists them. */
  lemma FileChecksumIsRecordsChecksum<R>(b: nat, shake: string -> nat, dump: R -> RecordLine,
                                         written: seq<R>, records: seq<R>)
    requires Small(FOLD, b) && multiset(LinesOf(dump, written)) == multiset(LinesOf(dump, records))
    ensures Product(b, shake, RecordLines(Render(LinesOf(dump, written)))) == Product(b, shake, LinesOf(dump, records))
    ensures |RecordLines(Render(LinesOf(dump, written)))| == |records|
  {
    RenderRead(LinesOf(dump, written));
    ProductOfPermutation(b, shake, LinesOf(dump, written), LinesOf(dump, records));
    assert |multiset(LinesOf(dump, written))| == |multiset(LinesOf(dump, records))|;
  }
}
