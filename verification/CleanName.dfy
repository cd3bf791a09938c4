/** The `..` elimination loop of smbclient's dos_clean_name, which edits the path in place. */
module CleanName {
  import opened Wrappers
  import opened Paths
  import opened CStrings

  const UP: string := ".."
  const PATTERN: string := "\\..\\"

  /** Walks names from left to right over a stack of open directories; None when it climbs above the root. */
  function Walk(stack: seq<string>, names: seq<string>): Option<seq<string>>
    decreases |names|
  {
    if names == [] then Some(stack)
    else if names[0] != UP then Walk(stack + [names[0]], names[1..])
    else if stack == [] then None
    else Walk(stack[..|stack| - 1], names[1..])
  }

  /** The names walked: all but what precedes the first backslash and what follows the last one. */
  function Interior(cs: seq<string>): seq<string>
    requires |cs| >= 1
  {
    if |cs| == 1 then [] else cs[1..|cs| - 1]
  }

  predicate Climbs(s: string) {
    Walk([], Interior(Split(s))).None?
  }

  function ReducedParts(cs: seq<string>): string
    requires |cs| >= 1
  {
    if |cs| == 1 then cs[0]
    else match Walk([], Interior(cs))
      case None => cs[0]
      case Some(stack) => Join([cs[0]] + stack + [cs[|cs| - 1]])
  }

  /** What the loop leaves: the walked path, or only the text before the first backslash after a climb. */
  function Reduced(s: string): string {
    ReducedParts(Split(s))
  }

  /** The same walk when `..` at the root stays at the root, as a file server resolves it. */
  function ClampedWalk(stack: seq<string>, names: seq<string>): seq<string>
    decreases |names|
  {
    if names == [] then stack
    else if names[0] != UP then ClampedWalk(stack + [names[0]], names[1..])
    else ClampedWalk(if stack == [] then [] else stack[..|stack| - 1], names[1..])
  }

  function Resolved(s: string): string {
    var cs := Split(s);
    if |cs| == 1 then cs[0] else Join([cs[0]] + ClampedWalk([], Interior(cs)) + [cs[|cs| - 1]])
  }

  lemma {:induction false} ClampedWalkAgrees(stack: seq<string>, names: seq<string>)
    requires Walk(stack, names).Some?
    ensures ClampedWalk(stack, names) == Walk(stack, names).value
    decreases |names|
  {
    if names == [] {
    } else if names[0] != UP {
      ClampedWalkAgrees(stack + [names[0]], names[1..]);
    } else {
      ClampedWalkAgrees(stack[..|stack| - 1], names[1..]);
    }
  }

  /** The loop keeps the meaning of a path exactly when no prefix of it climbs above the root. */
  lemma ReducedIsResolvedUnlessClimbing(s: string)
    ensures Reduced(s) == Resolved(s) <==> !Climbs(s)
  {
    var cs := Split(s);
    if |cs| > 1 {
      if Climbs(s) {
        JoinAppend([cs[0]], ClampedWalk([], Interior(cs)) + [cs[|cs| - 1]]);
        assert [cs[0]] + (ClampedWalk([], Interior(cs)) + [cs[|cs| - 1]])
            == [cs[0]] + ClampedWalk([], Interior(cs)) + [cs[|cs| - 1]];
        assert |Resolved(s)| > |cs[0]|;
      } else {
        ClampedWalkAgrees([], Interior(cs));
      }
    }
  }

  lemma {:induction false} WalkPushes(stack: seq<string>, xs: seq<string>, ys: seq<string>)
    requires UP !in xs
    ensures Walk(stack, xs + ys) == Walk(stack + xs, ys)
    decreases |xs|
  {
    if xs == [] {
      assert xs + ys == ys && stack + xs == stack;
    } else {
      assert (xs + ys)[1..] == xs[1..] + ys;
      assert stack + [xs[0]] + xs[1..] == stack + xs;
      WalkPushes(stack + [xs[0]], xs[1..], ys);
    }
  }

  lemma PatternBetween(head: string, tail: string)
    requires tail == UP || UP + [SEP] <= tail
    ensures OccursAt(head + [SEP] + tail + [SEP], PATTERN, |head|)
  {
    var s := head + [SEP] + tail + [SEP];
    assert tail[0] == '.' && tail[1] == '.';
    assert s[|head|] == SEP && s[|head| + 1] == tail[0] && s[|head| + 2] == tail[1] && s[|head| + 3] == SEP;
  }

  /** A `..` component after the first one shows up as the pattern once a backslash follows. */
  lemma {:induction false} UpIsPattern(x: string, j: nat) returns (q: nat)
    requires 1 <= j < |Split(x)| && Split(x)[j] == UP
    ensures OccursAt(x + [SEP], PATTERN, q)
  {
    var cs := Split(x);
    JoinSplit(x);
    JoinAppend(cs[..j], cs[j..]);
    assert cs[..j] + cs[j..] == cs;
    PatternBetween(Join(cs[..j]), Join(cs[j..]));
    q := |Join(cs[..j])|;
  }

  /** Names left of the first occurrence of the pattern are not `..`. */
  lemma NoUpBefore(s: string, p: nat)
    requires OccursAt(s, PATTERN, p) && forall i: nat :: i < p ==> !OccursAt(s, PATTERN, i)
    ensures UP !in Split(s[..p])[1..]
  {
    var x := s[..p];
    if UP in Split(x)[1..] {
      var j :| 0 <= j < |Split(x)[1..]| && Split(x)[1..][j] == UP;
      var q := UpIsPattern(x, j + 1);
      assert s[p] == PATTERN[0];
      assert s[q..q + 4] == (x + [SEP])[q..q + 4];
      assert OccursAt(s, PATTERN, q);
      assert false;
    }
  }

  lemma OccursInPrefix(x: string, s: string, pat: string, q: nat)
    requires OccursAt(x, pat, q) && x <= s
    ensures OccursAt(s, pat, q)
  {
    assert s[q..q + |pat|] == x[q..q + |pat|];
  }

  /** A `..` component that is neither first nor last is an occurrence of the pattern. */
  lemma {:induction false} InnerUpIsPattern(s: string, j: nat) returns (q: nat)
    requires 1 <= j < |Split(s)| - 1 && Split(s)[j] == UP
    ensures OccursAt(s, PATTERN, q)
  {
    var cs := Split(s);
    var n := |cs| - 1;
    assert cs[..n] + cs[n..] == cs;
    SplitPlain(s);
    SplitJoin(cs[..n]);
    JoinAppend(cs[..n], cs[n..]);
    JoinSplit(s);
    q := UpIsPattern(Join(cs[..n]), j);
    OccursInPrefix(Join(cs[..n]) + [SEP], s, PATTERN, q);
  }

  lemma {:induction false} NothingToReduce(s: string)
    requires forall i: nat :: !OccursAt(s, PATTERN, i)
    ensures Reduced(s) == s
  {
    var cs := Split(s);
    JoinSplit(s);
    if |cs| > 1 {
      var n := |cs| - 1;
      if UP in cs[1..n] {
        var j :| 1 <= j < n && cs[j] == UP;
        var q := InnerUpIsPattern(s, j);
        assert false;
      }
      WalkPushes([], cs[1..n], []);
      assert cs[1..n] + [] == cs[1..n] && [] + cs[1..n] == cs[1..n];
      assert [cs[0]] + cs[1..n] + [cs[n]] == cs;
    }
  }

  lemma AroundPattern(s: string, p: nat)
    requires OccursAt(s, PATTERN, p)
    ensures s == s[..p] + [SEP] + (UP + [SEP] + s[p + 4..])
  {
    var t := s[..p] + [SEP] + (UP + [SEP] + s[p + 4..]);
    forall i | 0 <= i < |s|
      ensures s[i] == t[i]
    {
      if p <= i < p + 4 {
        assert s[i] == s[p..p + 4][i - p];
      }
    }
  }

  /** The split of a path around the first occurrence of the pattern. */
  lemma {:induction false} SplitAround(s: string, p: nat)
    requires OccursAt(s, PATTERN, p)
    ensures Split(s) == Split(s[..p]) + [UP] + Split(s[p + 4..])
  {
    var x, y := s[..p], s[p + 4..];
    SplitName(UP);
    SplitAt(UP, y);
    SplitAt(x, UP + [SEP] + y);
    AroundPattern(s, p);
  }

  lemma WalkOverPair(stack: seq<string>, name: string, rest: seq<string>)
    requires name != UP
    ensures Walk(stack, [name, UP] + rest) == Walk(stack, rest)
  {
    assert ([name, UP] + rest)[1..] == [UP] + rest;
    assert ([UP] + rest)[1..] == rest;
    assert (stack + [name])[..|stack|] == stack;
  }

  lemma InteriorOf(xs: seq<string>, ys: seq<string>)
    requires |xs| >= 1 && |ys| >= 1
    ensures Interior(xs + ys) == xs[1..] + ys[..|ys| - 1]
  {
    var cs, inner := xs + ys, xs[1..] + ys[..|ys| - 1];
    assert cs[1..|cs| - 1] == inner;
  }

  /** Dropping a directory and the first `..`, which follows it, does not change the walk. */
  lemma DropPairParts(xs: seq<string>, name: string, ys: seq<string>)
    requires |xs| >= 1 && |ys| >= 1 && UP !in xs[1..] && name != UP
    ensures ReducedParts(xs + [name, UP] + ys) == ReducedParts(xs + ys)
  {
    var m, longer := |ys| - 1, [name, UP] + ys;
    assert xs + [name, UP] + ys == xs + longer;
    assert longer[..|longer| - 1] == [name, UP] + ys[..m];
    InteriorOf(xs, longer);
    InteriorOf(xs, ys);
    WalkPushes([], xs[1..], [name, UP] + ys[..m]);
    WalkPushes([], xs[1..], ys[..m]);
    WalkOverPair([] + xs[1..], name, ys[..m]);
  }

  lemma {:induction false} SplitBeforeUp(s: string, p: nat, r: nat)
    requires r < p <= |s| && s[r] == SEP && SEP !in s[r + 1..p]
    ensures Split(s[..p]) == Split(s[..r]) + [s[r + 1..p]]
  {
    assert s[..p] == s[..r] + [SEP] + s[r + 1..p];
    SplitAt(s[..r], s[r + 1..p]);
    SplitName(s[r + 1..p]);
  }

  /** The parts of the string before the turn, and of the string after it. */
  lemma {:induction false} PairSplits(s: string, p: nat, r: nat)
    requires OccursAt(s, PATTERN, p) && r < p && s[r] == SEP && SEP !in s[r + 1..p]
    ensures Split(s) == Split(s[..r]) + [s[r + 1..p], UP] + Split(s[p + 4..])
    ensures Split(s[..r] + s[p + 3..]) == Split(s[..r]) + Split(s[p + 4..])
  {
    SplitBeforeUp(s, p, r);
    SplitAround(s, p);
    assert Split(s[..r]) + [s[r + 1..p]] + [UP] == Split(s[..r]) + [s[r + 1..p], UP];
    assert s[..r] + s[p + 3..] == s[..r] + [SEP] + s[p + 4..] by {
      assert s[p..p + 4][3] == s[p + 3];
      assert s[p + 3..] == [s[p + 3]] + s[p + 4..];
    }
    SplitAt(s[..r], s[p + 4..]);
  }

  lemma {:induction false} NoUpInPair(s: string, p: nat, r: nat)
    requires OccursAt(s, PATTERN, p) && forall i: nat :: i < p ==> !OccursAt(s, PATTERN, i)
    requires r < p && s[r] == SEP && SEP !in s[r + 1..p]
    ensures UP !in Split(s[..r])[1..] && s[r + 1..p] != UP
  {
    NoUpBefore(s, p);
    SplitBeforeUp(s, p, r);
    var xs, name := Split(s[..r]), s[r + 1..p];
    assert (xs + [name])[1..] == xs[1..] + [name];
  }

  /** One turn with a directory before the `..`: both go, and the walk is the same. */
  lemma {:induction false} DropPair(s: string, p: nat, r: nat)
    requires OccursAt(s, PATTERN, p) && forall i: nat :: i < p ==> !OccursAt(s, PATTERN, i)
    requires r < p && s[r] == SEP && SEP !in s[r + 1..p]
    ensures Reduced(s[..r] + s[p + 3..]) == Reduced(s)
  {
    PairSplits(s, p, r);
    NoUpInPair(s, p, r);
    DropPairParts(Split(s[..r]), s[r + 1..p], Split(s[p + 4..]));
  }

  lemma CutParts(head: string, ys: seq<string>)
    requires |ys| >= 1
    ensures Walk([], Interior([head, UP] + ys)).None? && ReducedParts([head, UP] + ys) == head == ReducedParts([head])
  {
    assert Interior([head, UP] + ys) == [UP] + ys[..|ys| - 1];
  }

  /** One turn with nothing before the `..`: the path climbs, and only its head is left. */
  lemma {:induction false} CutAtRoot(s: string, p: nat)
    requires OccursAt(s, PATTERN, p) && SEP !in s[..p]
    ensures Climbs(s) && Reduced(s[..p]) == Reduced(s)
  {
    SplitAround(s, p);
    SplitName(s[..p]);
    assert [s[..p]] + [UP] == [s[..p], UP];
    CutParts(s[..p], Split(s[p + 4..]));
  }

  ghost predicate FirstAt(s: string, p: int) {
    (p == -1 && forall i: nat :: !OccursAt(s, PATTERN, i))
    || (p >= 0 && OccursAt(s, PATTERN, p) && forall i: nat :: i < p ==> !OccursAt(s, PATTERN, i))
  }

  /** The tail of a held string is itself a held string. */
  method TailLength(a: array<char>, ghost s: string, from: nat) returns (len: nat)
    requires |s| < a.Length && from <= |s| && a[from..|s|] == s[from..] && a[|s|] == NUL && NUL !in s
    ensures len == |s| - from
  {
    assert a[from..][|s| - from] == NUL;
    assert forall i :: from <= i < |s| ==> a[i] == a[from..|s|][i - from] == s[i] != NUL;
    len := StrLen(a, from);
  }

  lemma HoldsParts(a: array<char>, x: string, y: string)
    requires |x| + |y| < a.Length && a[..|x|] == x && a[|x|..|x| + |y| + 1] == y + [NUL] && NUL !in x && NUL !in y
    ensures Holds(a, x + y)
  {
    var b, c := a[..|x|], a[|x|..|x| + |y| + 1];
    assert a[..|x| + |y| + 1] == b + c;
    assert a[|x| + |y|] == c[|y|];
    assert a[..|x| + |y|] == (b + c)[..|x| + |y|];
  }

  /** Moves the tail that starts at from down to r. */
  method MoveTail(a: array<char>, ghost s: string, r: nat, from: nat)
    requires r <= from <= |s| < a.Length && a[..r] == s[..r] && a[from..|s|] == s[from..] && a[|s|] == NUL && NUL !in s
    modifies a
    ensures Holds(a, s[..r] + s[from..])
  {
    var len := TailLength(a, s, from);
    assert a[from..from + len + 1] == s[from..] + [NUL];
    MemMove(a, r, from, len + 1);
    assert a[..r] == s[..r];
    HoldsParts(a, s[..r], s[from..]);
  }

  /** The body of the loop: the string gets shorter and reduces to the same path. */
  method Turn(a: array<char>, ghost s: string, p: nat) returns (ghost shorter: string)
    requires Holds(a, s) && FirstAt(s, p)
    modifies a
    ensures Holds(a, shorter) && |shorter| < |s|
    ensures Reduced(shorter) == Reduced(s)
  {
    a[p] := NUL;
    assert a[..p] == s[..p];
    var r := StrRChr(a, s[..p], SEP);
    if r != -1 {
      assert SEP !in s[r + 1..p] by {
        assert s[..p][r + 1..] == s[r + 1..p];
      }
      DropPair(s, p, r);
      MoveTail(a, s, r, p + 3);
      shorter := s[..r] + s[p + 3..];
    } else {
      CutAtRoot(s, p);
      shorter := s[..p];
    }
  }

  /** The strstr / strrchr / memmove loop. */
  method ReduceDotDot(a: array<char>)
    requires NUL in a[..]
    modifies a
    ensures NUL in a[..]
    ensures Text(a[..]) == Reduced(Text(old(a[..])))
  {
    var n := StrLen(a, 0);
    ghost var s := a[..n];
    TextIs(a[..], s);
    ghost var given := s;
    var p := StrStr(a, s, PATTERN);
    while p != -1
      invariant Holds(a, s) && FirstAt(s, p)
      invariant Reduced(s) == Reduced(given)
      decreases |s|
    {
      s := Turn(a, s, p);
      p := StrStr(a, s, PATTERN);
    }
    NothingToReduce(s);
    TextIs(a[..], s);
  }

  lemma ClimbingPath()
    ensures Split("\\..\\a") == ["", "..", "a"]
  {
    SplitName("..");
    SplitName("a");
    SplitAt("..", "a");
    SplitAt("", "..\\a");
    assert "..\\a" == ".." + [SEP] + "a" && "\\..\\a" == "" + [SEP] + "..\\a";
  }

  /** A path that climbs above the root loses everything after its first backslash. */
  lemma {:induction false} ClimbingLosesTheRest()
    ensures Reduced("\\..\\a") == "" && Resolved("\\..\\a") == "\\a"
  {
    ClimbingPath();
    var cs: seq<string>, up: seq<string> := ["", "..", "a"], [".."];
    assert Interior(cs) == up && up[1..] == [];
    assert Walk([], up).None? && ClampedWalk([], up) == [];
    var left: seq<string> := ["", "a"];
    assert [cs[0]] + [] + [cs[2]] == left && left[1..] == ["a"];
  }
}
