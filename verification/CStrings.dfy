/** NUL-terminated strings held in character arrays, with the C library calls the client uses on them. */
module CStrings {
  const NUL: char := '\0'

  /** The array holds the string s, followed by a terminating NUL. */
  ghost predicate Holds(a: array<char>, s: string)
    reads a
  {
    |s| < a.Length && a[..|s|] == s && a[|s|] == NUL && NUL !in s
  }

  /** The characters before the first NUL (all of them when there is none). */
  function Text(b: seq<char>): string {
    if b == [] || b[0] == NUL then "" else [b[0]] + Text(b[1..])
  }

  lemma {:induction false} TextIs(b: seq<char>, s: string)
    requires |s| < |b| && b[..|s|] == s && b[|s|] == NUL && NUL !in s
    ensures Text(b) == s
  {
    if s != "" {
      assert b[0] == s[0];
      assert b[1..][..|s| - 1] == s[1..];
      TextIs(b[1..], s[1..]);
    }
  }

  predicate OccursAt(s: string, pat: string, i: nat) {
    i + |pat| <= |s| && s[i..i + |pat|] == pat
  }

  method StrLen(a: array<char>, from: nat) returns (n: nat)
    requires from < a.Length && NUL in a[from..]
    ensures from + n < a.Length && a[from + n] == NUL
    ensures forall i :: from <= i < from + n ==> a[i] != NUL
  {
    n := 0;
    ghost var k :| from <= k < a.Length && a[k] == NUL;
    while a[from + n] != NUL
      invariant from + n <= k
      invariant forall i :: from <= i < from + n ==> a[i] != NUL
      decreases k - n
    {
      n := n + 1;
    }
  }

  /** strstr: the first occurrence of pat, or -1. */
  method StrStr(a: array<char>, ghost s: string, pat: string) returns (p: int)
    requires Holds(a, s) && NUL !in pat && pat != ""
    ensures p == -1 ==> forall i: nat :: !OccursAt(s, pat, i)
    ensures p != -1 ==> 0 <= p && OccursAt(s, pat, p) && forall i: nat :: i < p ==> !OccursAt(s, pat, i)
  {
    p := 0;
    while a[p] != NUL
      invariant 0 <= p <= |s|
      invariant forall i: nat :: i < p ==> !OccursAt(s, pat, i)
      decreases |s| - p
    {
      var k := 0;
      while k < |pat| && a[p + k] == pat[k]
        invariant 0 <= k <= |pat| && p + k <= |s|
        invariant forall j :: 0 <= j < k ==> s[p + j] == pat[j]
      {
        assert a[p + k] != NUL && p + k < |s|;
        k := k + 1;
      }
      if k == |pat| {
        return;
      }
      assert OccursAt(s, pat, p) ==> s[p..p + |pat|][k] == pat[k];
      p := p + 1;
    }
    p := -1;
  }

  /** strrchr: the last occurrence of c, or -1. */
  method StrRChr(a: array<char>, ghost s: string, c: char) returns (r: int)
    requires Holds(a, s) && c != NUL
    ensures r == -1 ==> c !in s
    ensures r != -1 ==> 0 <= r < |s| && s[r] == c && c !in s[r + 1..]
  {
    r := -1;
    var i := 0;
    while a[i] != NUL
      invariant 0 <= i <= |s|
      invariant -1 <= r < i && (r != -1 ==> s[r] == c)
      invariant forall j :: r < j < i ==> s[j] != c
      decreases |s| - i
    {
      assert a[i] == s[i];
      if a[i] == c {
        r := i;
      }
      i := i + 1;
    }
  }

  /** memmove within one array. */
  method MemMove(a: array<char>, dst: nat, src: nat, n: nat)
    requires dst + n <= a.Length && src + n <= a.Length
    modifies a
    ensures a[dst..dst + n] == old(a[src..src + n])
    ensures forall i :: 0 <= i < a.Length && !(dst <= i < dst + n) ==> a[i] == old(a[i])
  {
    forall i | 0 <= i < n {
      a[dst + i] := a[src + i];
    }
  }
}
