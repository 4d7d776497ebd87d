/** Text that arrives in pieces. */
module Chunks {

  function Join(chunks: seq<string>): string {
    if chunks == [] then "" else chunks[0] + Join(chunks[1..])
  }

  function Longest(chunks: seq<string>): (n: nat)
    ensures forall c :: c in chunks ==> |c| <= n
  {
    if chunks == [] then 0
    else
      var rest := Longest(chunks[1..]);
      if |chunks[0]| > rest then |chunks[0]| else rest
  }

  lemma LongestOfTail(chunks: seq<string>, k: nat)
    requires k <= |chunks|
    ensures Longest(chunks[k..]) <= Longest(chunks)
  {
    if 0 < k {
      assert chunks[k..] == chunks[1..][k - 1..];
      LongestOfTail(chunks[1..], k - 1);
    }
  }

  lemma JoinUnfold(text: string, chunks: seq<string>)
    requires chunks != []
    ensures text + Join(chunks) == (text + chunks[0]) + Join(chunks[1..])
  {
  }

  lemma Associative<T>(a: seq<T>, b: seq<T>, c: seq<T>)
    ensures (a + b) + c == a + (b + c)
  {
  }
}
