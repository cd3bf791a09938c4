/** Backslash-separated path names: splitting into components and joining them back. */
module Paths {
  const SEP: char := '\\'

  predicate IsDot(name: string) {
    name == "." || name == ".."
  }

  /** The components between backslashes; a string without one is a single component. */
  function Split(s: string): (cs: seq<string>)
    ensures |cs| >= 1
  {
    if s == "" then [""]
    else if s[0] == SEP then [""] + Split(s[1..])
    else
      var rest := Split(s[1..]);
      [[s[0]] + rest[0]] + rest[1..]
  }

  function Join(cs: seq<string>): string
    requires |cs| >= 1
  {
    if |cs| == 1 then cs[0] else cs[0] + [SEP] + Join(cs[1..])
  }

  lemma {:induction false} JoinSplit(s: string)
    ensures Join(Split(s)) == s
  {
    if s == "" {
    } else {
      JoinSplit(s[1..]);
      assert s == [s[0]] + s[1..];
      var rest := Split(s[1..]);
      if s[0] == SEP {
        assert ([""] + rest)[1..] == rest;
      } else if |rest| > 1 {
        assert ([[s[0]] + rest[0]] + rest[1..])[1..] == rest[1..];
      }
    }
  }

  /** Splitting distributes over a separating backslash. */
  lemma {:induction false} SplitAt(x: string, y: string)
    ensures Split(x + [SEP] + y) == Split(x) + Split(y)
  {
    var s := x + [SEP] + y;
    if x == "" {
      assert s[1..] == y;
    } else {
      assert s[1..] == x[1..] + [SEP] + y;
      SplitAt(x[1..], y);
    }
  }

  lemma {:induction false} SplitName(n: string)
    requires SEP !in n
    ensures Split(n) == [n]
  {
    if n == "" {
    } else {
      SplitName(n[1..]);
      assert n == [n[0]] + n[1..];
    }
  }

  /** No component contains a backslash. */
  lemma {:induction false} SplitPlain(s: string)
    ensures forall c :: c in Split(s) ==> SEP !in c
  {
    if s != "" {
      SplitPlain(s[1..]);
      assert Split(s[1..])[0] in Split(s[1..]);
    }
  }

  predicate Plain(cs: seq<string>) {
    forall i :: 0 <= i < |cs| ==> SEP !in cs[i]
  }

  lemma {:induction false} SplitJoin(cs: seq<string>)
    requires |cs| >= 1 && Plain(cs)
    ensures Split(Join(cs)) == cs
  {
    SplitName(cs[0]);
    if |cs| > 1 {
      SplitJoin(cs[1..]);
      SplitAt(cs[0], Join(cs[1..]));
      assert cs == [cs[0]] + cs[1..];
    }
  }

  lemma {:induction false} JoinAppend(xs: seq<string>, ys: seq<string>)
    requires |xs| >= 1 && |ys| >= 1
    ensures Join(xs + ys) == Join(xs) + [SEP] + Join(ys)
  {
    if |xs| == 1 {
      assert (xs + ys)[1..] == ys;
    } else {
      JoinAppend(xs[1..], ys);
      assert (xs + ys)[1..] == xs[1..] + ys;
    }
  }
}
