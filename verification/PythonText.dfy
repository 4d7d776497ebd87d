/** `str.strip()` and what it takes for white space. */
module PythonText {

  predicate IsWhite(c: char) {
    || '\t' <= c <= '\r' || '\U{1c}' <= c <= ' ' || c == '\U{85}' || c == '\U{a0}' || c == '\U{1680}'
    || '\U{2000}' <= c <= '\U{200a}' || c == '\U{2028}' || c == '\U{2029}' || c == '\U{202f}'
    || c == '\U{205f}' || c == '\U{3000}'
  }

  function StripLeft(s: string): string {
    if s != "" && IsWhite(s[0]) then StripLeft(s[1..]) else s
  }

  function StripRight(s: string): string {
    if s != "" && IsWhite(s[|s| - 1]) then StripRight(s[..|s| - 1]) else s
  }

  function Strip(s: string): string {
    StripRight(StripLeft(s))
  }

  // ----- what stripping leaves

  ghost predicate AllWhite(s: string) {
    forall i :: 0 <= i < |s| ==> IsWhite(s[i])
  }

  ghost predicate Tidy(s: string) {
    s != "" && !IsWhite(s[0]) && !IsWhite(s[|s| - 1])
  }

  /** What is left of `s` when only white space is taken away, and as much of it as there is at
      either end. */
  ghost predicate IsStripped(s: string, left: string, r: string, right: string) {
    AllWhite(left) && AllWhite(right) && (r == "" || Tidy(r)) && s == left + (r + right)
  }

  lemma {:induction false} StripLeftIs(left: string, rest: string)
    requires AllWhite(left) && (rest == "" || !IsWhite(rest[0]))
    ensures StripLeft(left + rest) == rest
  {
    if left == "" {
      assert left + rest == rest;
    } else {
      assert (left + rest)[1..] == left[1..] + rest;
      StripLeftIs(left[1..], rest);
    }
  }

  lemma {:induction false} StripRightIs(rest: string, right: string)
    requires AllWhite(right) && (rest == "" || !IsWhite(rest[|rest| - 1]))
    ensures StripRight(rest + right) == rest
  {
    if right == "" {
      assert rest + right == rest;
    } else {
      assert (rest + right)[..|rest + right| - 1] == rest + right[..|right| - 1];
      StripRightIs(rest, right[..|right| - 1]);
    }
  }

  lemma {:induction false} LeftTakenAway(s: string) returns (left: string)
    ensures AllWhite(left) && s == left + StripLeft(s) && (StripLeft(s) == "" || !IsWhite(StripLeft(s)[0]))
  {
    left := "";
    if s != "" && IsWhite(s[0]) {
      var more := LeftTakenAway(s[1..]);
      left := [s[0]] + more;
    }
  }

  lemma {:induction false} RightTakenAway(s: string) returns (right: string)
    ensures AllWhite(right) && s == StripRight(s) + right
    ensures StripRight(s) == "" || !IsWhite(StripRight(s)[|StripRight(s)| - 1])
  {
    right := "";
    if s != "" && IsWhite(s[|s| - 1]) {
      var more := RightTakenAway(s[..|s| - 1]);
      right := more + [s[|s| - 1]];
    }
  }

  /** Stripping is what it is said to be, and nothing else is. */
  lemma StripExactlyWhen(s: string, r: string)
    ensures r == Strip(s) <==> exists left, right :: IsStripped(s, left, r, right)
  {
    var left := LeftTakenAway(s);
    var right := RightTakenAway(StripLeft(s));
    assert Strip(s) != "" ==> Strip(s)[0] == StripLeft(s)[0];
    assert IsStripped(s, left, Strip(s), right);
    forall left, right | IsStripped(s, left, r, right)
      ensures r == Strip(s)
    {
      if r == "" {
        assert s == (left + right) + "" && AllWhite(left + right);
        StripLeftIs(left + right, "");
      } else {
        StripLeftIs(left, r + right);
        StripRightIs(r, right);
      }
    }
  }

  lemma StripShortens(s: string)
    ensures |Strip(s)| <= |s|
  {
    StripLeftShortens(s);
    StripRightShortens(StripLeft(s));
  }

  lemma StripLeftShortens(s: string)
    ensures |StripLeft(s)| <= |s|
  {
  }

  lemma StripRightShortens(s: string)
    ensures |StripRight(s)| <= |s|
  {
  }

  lemma {:induction false} StripLeftLeavesNothing(s: string)
    requires AllWhite(StripLeft(s))
    ensures AllWhite(s)
  {
    if s != "" && IsWhite(s[0]) {
      StripLeftLeavesNothing(s[1..]);
      assert forall i :: 0 < i < |s| ==> s[i] == s[1..][i - 1];
    }
  }

  lemma {:induction false} StripRightLeavesNothing(s: string)
    requires StripRight(s) == ""
    ensures AllWhite(s)
  {
    if s != "" && IsWhite(s[|s| - 1]) {
      StripRightLeavesNothing(s[..|s| - 1]);
    }
  }

  lemma {:induction false} StripRightKeeps(s: string, n: nat)
    requires n < |s| && !IsWhite(s[n])
    ensures |StripRight(s)| > n
  {
    if IsWhite(s[|s| - 1]) {
      StripRightKeeps(s[..|s| - 1], n);
    }
  }

  lemma {:induction false} StripLeftKeeps(s: string, n: nat)
    requires n < |s| && !IsWhite(s[n])
    ensures |s| - n <= |StripLeft(s)| <= |s|
    ensures StripLeft(s)[|StripLeft(s)| - 1] == s[|s| - 1]
  {
    if IsWhite(s[0]) {
      StripLeftKeeps(s[1..], n - 1);
    }
  }

  lemma {:induction false} StripRightCuts(s: string)
    ensures |StripRight(s)| <= |s| && StripRight(s) == s[..|StripRight(s)|]
  {
    if s != "" && IsWhite(s[|s| - 1]) {
      StripRightCuts(s[..|s| - 1]);
    }
  }

  /** Before a tidy text, stripping only removes white space in front. */
  lemma {:induction false} StripBefore(lost: string, rest: string) returns (from: nat)
    requires Tidy(rest)
    ensures from <= |lost| && Strip(lost + rest) == lost[from..] + rest
  {
    var s := lost + rest;
    assert s[|s| - 1] == rest[|rest| - 1];
    if lost != "" && IsWhite(lost[0]) {
      assert s[1..] == lost[1..] + rest;
      from := StripBefore(lost[1..], rest);
      from := from + 1;
    } else {
      from := 0;
      assert lost == "" ==> s == rest;
    }
  }

  lemma StripKeepsFrom(s: string, n: nat)
    requires n < |s| && !IsWhite(s[n]) && !IsWhite(s[|s| - 1])
    ensures |Strip(s)| >= |s| - n
  {
    StripLeftKeeps(s, n);
    var left := StripLeft(s);
    StripRightKeeps(left, |left| - 1);
  }
}
