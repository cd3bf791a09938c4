/** smbcli_deltree and its callback delete_fn: recursive deletion of a remote directory. */
module DeleteTree {
  import opened Paths
  import opened RemoteFs

  // ----- names -----

  lemma {:induction false} JoinStarFree(cs: seq<string>)
    requires |cs| >= 1 && forall i :: 0 <= i < |cs| ==> '*' !in cs[i]
    ensures '*' !in Join(cs)
  {
    if |cs| > 1 {
      JoinStarFree(cs[1..]);
    }
  }

  /** The names that the callback builds from its mask and its entry are those of the entry and of its contents. */
  lemma EntryNames(p: Path, name: string)
    requires PlainPath(p)
    ensures var mask := Join(p + ["*"]);
            && |mask| >= 1
            && mask[..|mask| - 1] + name == Join(p + [name])
            && Join(p + [name]) + "\\*" == Join(p + [name] + ["*"])
  {
    JoinAppend(p, ["*"]);
    JoinAppend(p, [name]);
    JoinAppend(p + [name], ["*"]);
    assert Join(p + ["*"])[..|Join(p + ["*"])| - 1] == Join(p) + [SEP];
  }

  lemma NameResolves(c: Path)
    requires PlainPath(c)
    ensures Split(Join(c)) == c && '*' !in Join(c)
    ensures Parent(Split(Join(c + ["*"]))) == c
  {
    SplitJoin(c);
    JoinStarFree(c);
    SplitJoin(c + ["*"]);
  }

  // ----- what a pass over the entries of directory c does to the file system -----

  predicate NotAmong(entries: seq<Entry>, i: nat, n: string) {
    forall j :: 0 <= j < i && j < |entries| ==> entries[j].name != n
  }

  /** Only nodes below c changed, none appeared, and the subtrees of all but the first i entries are untouched. */
  ghost predicate Pass(before: Fs, now: Fs, c: Path, entries: seq<Entry>, i: nat) {
    && Within(before, now, c)
    && (c in before ==> c in now && now[c] == before[c])
    && forall n :: NotAmong(entries, i, n) ==> SameWithin(before, now, c + [n])
  }

  /** Some entry among the first i is still there. */
  ghost predicate Left(fs: Fs, c: Path, entries: seq<Entry>, i: nat)
    requires i <= |entries|
  {
    exists j :: 0 <= j < i && !IsDot(entries[j].name) && c + [entries[j].name] in fs
  }

  lemma ChildFacts(c: Path, a: string, b: string)
    ensures Under(c, c + [a]) && !Under(c + [a], c)
    ensures a != b ==> forall q :: Under(c + [b], q) ==> !Under(c + [a], q)
    ensures forall q :: !Under(c, q) ==> !Under(c + [a], q)
  {
    forall q | Under(c + [b], q)
      ensures a != b ==> !Under(c + [a], q)
    {
      assert q[|c|] == b;
    }
    forall q | Under(c + [a], q)
      ensures Under(c, q)
    {
      assert q[..|c|] == c;
    }
  }

  lemma PassStep(before: Fs, a: Fs, b: Fs, c: Path, entries: seq<Entry>, i: nat)
    requires i < |entries| && Listed(before, c, entries)
    requires Pass(before, a, c, entries, i)
    requires Within(a, b, c + [entries[i].name])
    ensures Pass(before, b, c, entries, i + 1)
    ensures Left(b, c, entries, i + 1) <==>
            Left(a, c, entries, i) || (!IsDot(entries[i].name) && c + [entries[i].name] in b)
  {
    var n := entries[i].name;
    ChildFacts(c, n, n);
    forall m | NotAmong(entries, i + 1, m)
      ensures SameWithin(before, b, c + [m])
    {
      assert NotAmong(entries, i, m) && m != n;
      ChildFacts(c, n, m);
    }
    forall j | 0 <= j < |entries| && j != i
      ensures c + [entries[j].name] in a <==> c + [entries[j].name] in b
    {
      ChildFacts(c, n, entries[j].name);
      assert Under(c + [entries[j].name], c + [entries[j].name]);
    }
  }

  /** When every entry of a complete listing is gone, nothing is left below the directory. */
  lemma NothingBelow(before: Fs, now: Fs, c: Path, entries: seq<Entry>)
    requires WellFormed(now) && |c| >= 1
    requires Pass(before, now, c, entries, |entries|) && Complete(before, c, entries) && !Left(now, c, entries, |entries|)
    ensures !Occupied(now, c)
  {
    forall q | q in now && Under(c, q)
      ensures q == c
    {
      if |q| > |c| {
        ChildOnTheWay(now, c, q);
        assert false;
      }
    }
  }

  lemma {:induction false} SubsetSize<T>(a: set<T>, b: set<T>)
    requires a <= b
    ensures |a| <= |b|
  {
    if a != {} {
      var x :| x in a;
      SubsetSize(a - {x}, b - {x});
    }
  }

  lemma SubtreeShrinks(before: Fs, now: Fs, c: Path, name: string)
    requires now.Keys <= before.Keys && c in before
    ensures |Subtree(now, c + [name])| < |Subtree(before, c)|
  {
    ChildFacts(c, name, name);
    assert c in Subtree(before, c) && Under(c, c);
    var rest := Subtree(before, c) - {c};
    assert Subtree(now, c + [name]) <= rest;
    SubsetSize(Subtree(now, c + [name]), rest);
  }

  lemma SubtreeOfFewer(before: Fs, now: Fs, c: Path)
    requires now.Keys <= before.Keys
    ensures |Subtree(now, c)| <= |Subtree(before, c)|
  {
    SubsetSize(Subtree(now, c), Subtree(before, c));
  }

  lemma SweptOutside(fs: Fs, gone: set<Path>, c: Path)
    requires Files(fs, c, gone)
    ensures Within(fs, fs - gone, c) && c !in gone
  {
    forall q | q in gone
      ensures Under(c, q) && q != c && q in fs
    {
      assert q[..|q| - 1] == c;
    }
  }

  lemma RemovedOne(start: Fs, before: Fs, now: Fs, c: Path)
    requires Within(start, before, c)
    requires now == before || (c in before && now == before - {c})
    ensures Within(start, now, c)
    ensures now != before ==> c !in now
  {
    assert Under(c, c);
  }

  lemma LeftOccupies(fs: Fs, c: Path, entries: seq<Entry>)
    ensures Left(fs, c, entries, |entries|) ==> Occupied(fs, c)
  {
    if Left(fs, c, entries, |entries|) {
      var j :| 0 <= j < |entries| && c + [entries[j].name] in fs;
      ChildFacts(c, entries[j].name, entries[j].name);
    }
  }

  lemma PassStarts(fs: Fs, c: Path, entries: seq<Entry>)
    ensures Pass(fs, fs, c, entries, 0) && !Left(fs, c, entries, 0)
  {
  }

  /** An entry's subtree is part of its directory's, and smaller when the entry exists. */
  lemma EntryIsSmaller(before: Fs, now: Fs, c: Path, name: string)
    requires WellFormed(now) && now.Keys <= before.Keys && |c| >= 1
    ensures |Subtree(now, c + [name])| <= |Subtree(before, c)|
    ensures c + [name] in now ==> |Subtree(now, c + [name])| < |Subtree(before, c)|
  {
    ChildFacts(c, name, name);
    if c + [name] in now {
      AncestorExists(now, c, c + [name]);
      SubtreeShrinks(before, now, c, name);
    } else {
      SubsetSize(Subtree(now, c + [name]), Subtree(before, c));
    }
  }

  lemma EntryStillThere(before: Fs, now: Fs, c: Path, entries: seq<Entry>, i: nat)
    requires i < |entries| && Listed(before, c, entries) && Pass(before, now, c, entries, i)
    ensures !IsDot(entries[i].name) ==>
              c + [entries[i].name] in now && now[c + [entries[i].name]] == entries[i].info
  {
    assert NotAmong(entries, i, entries[i].name);
    assert Under(c + [entries[i].name], c + [entries[i].name]);
  }

  // ----- what the wildcard unlinks took -----

  /**
   Wildcard unlinks take nothing where there is no writable file below c, and something where there is one, if
   the server is eager and nothing is left.
   */
  ghost predicate Swept(eager: bool, before: Fs, now: Fs, c: Path, s: nat, s': nat) {
    && s <= s'
    && (!WritableBelow(before, c) ==> s' == s)
    && (eager && WritableBelow(before, c) && !Occupied(now, c) ==> s' > s)
  }

  /** The same after the first i entries: nothing was taken in vain, and what had something to take and is gone gave something. */
  ghost predicate SweptEntries(eager: bool, before: Fs, now: Fs, c: Path, entries: seq<Entry>, i: nat, s: nat, s': nat)
    requires i <= |entries|
  {
    && s <= s'
    && (!WritableBelow(before, c) ==> s' == s)
    && (eager && s' == s ==>
          forall j :: 0 <= j < i && WritableBelow(before, c + [entries[j].name]) ==> c + [entries[j].name] in now)
  }

  lemma WritableInEntry(fs: Fs, c: Path, n: string)
    requires WritableBelow(fs, c + [n])
    ensures WritableBelow(fs, c)
  {
    var q :| WritableFile(fs, q) && Under(c + [n], q) && q != c + [n];
    ChildFacts(c, n, n);
    assert Under(c, q);
  }

  lemma SameWritable(a: Fs, b: Fs, p: Path)
    requires SameWithin(a, b, p)
    ensures WritableBelow(a, p) <==> WritableBelow(b, p)
  {
  }

  /** One entry, handled while its subtree was as before. */
  lemma SweptEntry(eager: bool, before: Fs, a: Fs, b: Fs, e: Path, s: nat, s': nat)
    requires SameWithin(before, a, e) && WellFormed(b) && |e| >= 1 && Swept(eager, a, b, e, s, s')
    ensures s <= s' && (!WritableBelow(before, e) ==> s' == s)
    ensures eager && WritableBelow(before, e) && s' == s ==> e in b
  {
    SameWritable(before, a, e);
    if Occupied(b, e) {
      var q :| q in b && Under(e, q) && q != e;
      AncestorExists(b, e, q);
    }
  }

  lemma OtherEntryStays(a: Fs, b: Fs, c: Path, n: string, m: string)
    requires Within(a, b, c + [n]) && m != n
    ensures c + [m] in a ==> c + [m] in b
  {
    ChildFacts(c, n, m);
    assert Under(c + [m], c + [m]);
  }

  lemma SweptStep(eager: bool, before: Fs, a: Fs, b: Fs, c: Path, entries: seq<Entry>, i: nat, s0: nat, s: nat, s': nat)
    requires i < |entries| && Listed(before, c, entries) && Pass(before, a, c, entries, i) && WellFormed(b)
    requires SweptEntries(eager, before, a, c, entries, i, s0, s)
    requires Within(a, b, c + [entries[i].name])
    requires Swept(eager, a, b, c + [entries[i].name], s, s')
    ensures SweptEntries(eager, before, b, c, entries, i + 1, s0, s')
  {
    var e := c + [entries[i].name];
    assert NotAmong(entries, i, entries[i].name);
    SweptEntry(eager, before, a, b, e, s, s');
    if WritableBelow(before, e) {
      WritableInEntry(before, c, entries[i].name);
    }
    forall j | 0 <= j < i
      ensures c + [entries[j].name] in a ==> c + [entries[j].name] in b
    {
      OtherEntryStays(a, b, c, entries[i].name, entries[j].name);
    }
  }

  /** A writable file deeper than the entries of c. */
  ghost predicate WritableDeeper(fs: Fs, c: Path) {
    exists q :: WritableFile(fs, q) && Under(c, q) && |q| > |c| + 1
  }

  /** With the entries gone, a deeper writable file has given the wildcard unlinks something to take. */
  lemma SweptAll(eager: bool, before: Fs, now: Fs, c: Path, entries: seq<Entry>, s: nat, s': nat)
    requires WellFormed(before) && |c| >= 1
    requires Pass(before, now, c, entries, |entries|) && SweptEntries(eager, before, now, c, entries, |entries|, s, s')
    requires eager && WritableDeeper(before, c) && !Occupied(now, c)
    ensures s' > s
  {
    var q :| WritableFile(before, q) && Under(c, q) && |q| > |c| + 1;
    var n := q[|c|];
    var e := c + [n];
    ChildOnTheWay(before, c, q);
    ChildFacts(c, n, n);
    assert WritableBelow(before, e);
    assert Under(e, e);
    assert e !in now;
    assert !SameWithin(before, now, e);
    assert !NotAmong(entries, |entries|, n);
  }

  /** The wildcard unlink of one directory, and then its entries. */
  lemma SweptDirectory(eager: bool, before: Fs, gone: set<Path>, now: Fs, c: Path, s: nat, s': nat)
    requires WellFormed(before) && |c| >= 1 && Files(before, c, gone) && (eager ==> gone == AllFiles(before, c))
    requires s + |gone| <= s' && (!WritableBelow(before - gone, c) ==> s' == s + |gone|)
    requires eager && WritableDeeper(before - gone, c) && !Occupied(now, c) ==> s' > s + |gone|
    ensures Swept(eager, before, now, c, s, s')
  {
    forall q | q in gone
      ensures Under(c, q) && q != c
    {
      assert q[..|q| - 1] == c;
    }
    if !WritableBelow(before, c) {
      assert gone == {};
      assert before - gone == before;
    } else if eager && !Occupied(now, c) {
      var q :| WritableFile(before, q) && Under(c, q) && q != c;
      if |q| == |c| + 1 {
        assert Parent(q) == c;
        assert q in gone;
      } else {
        assert q !in gone;
        assert WritableFile(before - gone, q);
      }
    }
  }

  lemma SweptRmdir(eager: bool, before: Fs, emptied: Fs, now: Fs, c: Path, s: nat, s': nat)
    requires Swept(eager, before, emptied, c, s, s')
    requires now == emptied || !Occupied(emptied, c)
    ensures Swept(eager, before, now, c, s, s')
  {
  }

  /** Clearing an attribute of c itself matters to nothing below it. */
  lemma SweptCleared(eager: bool, before: Fs, cleared: Fs, now: Fs, c: Path, s: nat, s': nat)
    requires Swept(eager, cleared, now, c, s, s')
    requires cleared.Keys == before.Keys && forall q :: q in cleared && q != c ==> cleared[q] == before[q]
    ensures Swept(eager, before, now, c, s, s')
  {
    if WritableBelow(before, c) {
      var q :| WritableFile(before, q) && Under(c, q) && q != c;
      assert WritableFile(cleared, q);
    }
    if WritableBelow(cleared, c) {
      var q :| WritableFile(cleared, q) && Under(c, q) && q != c;
      assert WritableFile(before, q);
    }
  }

  lemma GoneBelow(fs: Fs, p: Path)
    requires WellFormed(fs) && p !in fs && |p| >= 1
    ensures forall q :: Under(p, q) ==> q !in fs
  {
    forall q | Under(p, q) && q in fs
      ensures false
    {
      AncestorExists(fs, p, q);
    }
  }

  /** A wildcard unlink reached everything: the nodes that were at or below p, less those it took. */
  lemma CountedAll(before: Fs, now: Fs, p: Path)
    requires SameOutside(before, now, p) && now.Keys <= before.Keys && forall q :: Under(p, q) ==> q !in now
    ensures |Subtree(before, p)| == |before| - |now|
  {
    assert now.Keys == before.Keys - Subtree(before, p);
    assert |now.Keys| == |now| && |before.Keys| == |before|;
  }

  lemma NothingBelowFile(fs: Fs, p: Path)
    requires WellFormed(fs) && |p| >= 1 && (p in fs ==> !fs[p].directory)
    ensures !WritableBelow(fs, p)
  {
    forall q | q in fs && Under(p, q)
      ensures q == p
    {
      AncestorExists(fs, p, q);
      FileHasNoChildren(fs, p, q);
    }
  }

  // ----- what the deletion of a node, or of the contents of a directory, comes to -----

  /** The tree and the counters at one moment; tally is what was counted, what was swept, and what is left. */
  datatype Snap = Snap(fs: Fs, failed: bool, tally: int, denied: bool, swept: nat)

  /** Directory c stays; a new failure means that something is left in it, and nothing is unless something was refused. */
  ghost predicate Emptied(eager: bool, a: Snap, b: Snap, c: Path) {
    && Within(a.fs, b.fs, c) && (c in a.fs ==> c in b.fs && b.fs[c] == a.fs[c])
    && (a.failed ==> b.failed) && (b.failed && !a.failed ==> Occupied(b.fs, c))
    && (!b.failed ==> b.tally == a.tally)
    && (a.denied ==> b.denied) && (!b.denied ==> !Occupied(b.fs, c))
    && Swept(eager, a.fs, b.fs, c, a.swept, b.swept)
  }

  /** Node c goes, or the failure is noted; it goes unless something was refused. */
  ghost predicate Deleted(eager: bool, a: Snap, b: Snap, c: Path) {
    && Within(a.fs, b.fs, c)
    && b.failed == (a.failed || c in b.fs)
    && (!b.failed ==> b.tally == a.tally)
    && (a.denied ==> b.denied) && (!b.denied ==> c !in b.fs)
    && Swept(eager, a.fs, b.fs, c, a.swept, b.swept)
  }

  /** After the callbacks for the first i entries. */
  ghost predicate CalledBack(eager: bool, a: Snap, b: Snap, c: Path, entries: seq<Entry>, i: nat)
    requires i <= |entries|
  {
    && Pass(a.fs, b.fs, c, entries, i)
    && b.failed == (a.failed || Left(b.fs, c, entries, i))
    && (!b.failed ==> b.tally == a.tally)
    && (a.denied ==> b.denied) && (!b.denied ==> !Left(b.fs, c, entries, i))
    && SweptEntries(eager, a.fs, b.fs, c, entries, i, a.swept, b.swept)
  }

  lemma CalledBackOnce(eager: bool, a: Snap, b: Snap, b': Snap, c: Path, entries: seq<Entry>, i: nat)
    requires i < |entries| && Listed(a.fs, c, entries) && WellFormed(b'.fs)
    requires CalledBack(eager, a, b, c, entries, i)
    requires if IsDot(entries[i].name) then b' == b else Deleted(eager, b, b', c + [entries[i].name])
    ensures CalledBack(eager, a, b', c, entries, i + 1)
  {
    PassStep(a.fs, b.fs, b'.fs, c, entries, i);
    SweptStep(eager, a.fs, b.fs, b'.fs, c, entries, i, a.swept, b.swept, b'.swept);
  }

  /** The wildcard unlink took the given files, and the listing shows what is left. */
  ghost predicate Unlinked(eager: bool, a: Snap, m: Snap, c: Path, gone: set<Path>, entries: seq<Entry>) {
    && WellFormed(a.fs) && WellFormed(m.fs) && |c| >= 1
    && Files(a.fs, c, gone) && (eager ==> gone == AllFiles(a.fs, c))
    && m.fs == a.fs - gone && m.failed == a.failed && m.tally == a.tally && m.swept == a.swept + |gone|
    && (a.denied ==> m.denied) && Listed(m.fs, c, entries) && (!m.denied ==> Complete(m.fs, c, entries))
  }

  /** The wildcard unlink, the listing, and the callbacks for all its entries. */
  lemma EmptiedByParts(eager: bool, a: Snap, gone: set<Path>, m: Snap, b: Snap, c: Path, entries: seq<Entry>)
    requires Unlinked(eager, a, m, c, gone, entries) && CalledBack(eager, m, b, c, entries, |entries|) && WellFormed(b.fs)
    ensures Emptied(eager, a, b, c)
  {
    SweptOutside(a.fs, gone, c);
    WithinTwice(a.fs, m.fs, b.fs, c);
    LeftOccupies(b.fs, c, entries);
    if !b.denied {
      NothingBelow(m.fs, b.fs, c, entries);
    }
    if eager && WritableDeeper(m.fs, c) && !Occupied(b.fs, c) {
      SweptAll(eager, m.fs, b.fs, c, entries, m.swept, b.swept);
    }
    SweptDirectory(eager, a.fs, gone, b.fs, c, a.swept, b.swept);
  }

  /** One operation on node c, counted whether it worked or not. */
  ghost predicate Removed(m: Snap, b: Snap, c: Path, ok: bool) {
    && b.fs == (if ok then m.fs - {c} else m.fs) && (m.denied ==> b.denied)
    && b.failed == (m.failed || !ok) && (ok ==> b.tally == m.tally) && b.swept == m.swept
  }

  /** The removal of a directory after its contents. */
  lemma DeletedByParts(eager: bool, a: Snap, m: Snap, b: Snap, c: Path, ok: bool)
    requires c in a.fs && Emptied(eager, a, m, c) && Removed(m, b, c, ok)
    requires if ok then !Occupied(m.fs, c) else !b.denied ==> Occupied(m.fs, c)
    ensures Deleted(eager, a, b, c)
  {
    RemovedOne(a.fs, m.fs, b.fs, c);
    SweptRmdir(eager, a.fs, m.fs, b.fs, c, a.swept, b.swept);
  }

  /** The removal of a file. */
  lemma FileDeleted(eager: bool, a: Snap, b: Snap, c: Path, ok: bool)
    requires WellFormed(a.fs) && |c| >= 1 && c in a.fs && !a.fs[c].directory
    requires Removed(a, b, c, ok) && (!ok ==> b.denied)
    ensures Deleted(eager, a, b, c)
  {
    NothingBelowFile(a.fs, c);
    RemovedOne(a.fs, a.fs, b.fs, c);
  }

  /** At most an attribute of node c changed. */
  ghost predicate Cleared(a: Snap, m: Snap, c: Path) {
    && m.fs.Keys == a.fs.Keys && Within(a.fs, m.fs, c) && (forall q :: q in m.fs && q != c ==> m.fs[q] == a.fs[q])
    && m.failed == a.failed && m.tally == a.tally && m.swept == a.swept && (a.denied ==> m.denied)
  }

  /** Clearing an attribute of the node first makes no difference. */
  lemma DeletedCleared(eager: bool, a: Snap, m: Snap, b: Snap, c: Path)
    requires Cleared(a, m, c) && Deleted(eager, m, b, c)
    ensures Deleted(eager, a, b, c)
  {
    WithinTwice(a.fs, m.fs, b.fs, c);
    SweptCleared(eager, a.fs, m.fs, b.fs, c, a.swept, b.swept);
  }

  class DeleteState {
    const tree: Remote
    var totalDeleted: nat
    var failed: bool

    constructor (tree: Remote)
      ensures this.tree == tree && totalDeleted == 0 && !failed
    {
      this.tree := tree;
      totalDeleted, failed := 0, false;
    }

    ghost function Now(): Snap
      reads this, tree
    {
      Snap(tree.fs, failed, totalDeleted + tree.swept + |tree.fs|, tree.denied, tree.swept)
    }

    /** The two calls with the mask of directory c. */
    method UnlinkAndList(mask: string, ghost c: Path) returns (entries: seq<Entry>, ghost gone: set<Path>)
      requires tree.Valid() && PlainPath(c) && mask == Join(c + ["*"])
      modifies tree
      ensures tree.Valid() && Unlinked(tree.eager, old(Now()), Now(), c, gone, entries)
      ensures |Subtree(tree.fs, c)| <= |Subtree(old(tree.fs), c)|
    {
      NameResolves(c);
      gone := tree.UnlinkAll(mask);
      SubtreeOfFewer(old(tree.fs), tree.fs, c);
      entries := tree.List(mask);
    }

    /** Takes note of how the removal of a node went. */
    method Count(ok: bool)
      modifies this
      ensures failed == (old(failed) || !ok) && totalDeleted == old(totalDeleted) + 1
    {
      if !ok {
        failed := true;
      }
      totalDeleted := totalDeleted + 1;
    }

    /** smbcli_rmdir. */
    method RemoveDir(s: string, ghost c: Path) returns (ok: bool)
      requires tree.Valid() && PlainPath(c) && s == Join(c) && c in tree.fs && tree.fs[c].directory
      modifies this, tree
      ensures tree.Valid() && Removed(old(Now()), Now(), c, ok)
      ensures if ok then !Occupied(old(tree.fs), c) else !tree.denied ==> Occupied(old(tree.fs), c)
    {
      NameResolves(c);
      ok := tree.Rmdir(s);
      Count(ok);
    }

    /** smbcli_setatr on a read-only node. */
    method ClearFirst(s: string, info: Info, ghost c: Path)
      requires tree.Valid() && PlainPath(c) && s == Join(c) && c in tree.fs && tree.fs[c] == info
      modifies tree
      ensures tree.Valid() && Cleared(old(Now()), Now(), c)
      ensures c in tree.fs && tree.fs[c].directory == info.directory && (tree.fs[c].readonly ==> tree.denied)
      ensures |Subtree(tree.fs, c)| <= |Subtree(old(tree.fs), c)|
    {
      NameResolves(c);
      if info.readonly {
        tree.ClearReadonly(s);
        SubtreeOfFewer(old(tree.fs), tree.fs, c);
      }
    }

    method DeleteDir(s: string, ghost c: Path)
      requires tree.Valid() && PlainPath(c) && s == Join(c) && c in tree.fs && tree.fs[c].directory
      modifies this, tree
      ensures tree.Valid() && Deleted(tree.eager, old(Now()), Now(), c)
      decreases |Subtree(tree.fs, c)|, 4
    {
      JoinAppend(c, ["*"]);
      EmptyDir(s + "\\*", c);
      ghost var m := Now();
      var ok := RemoveDir(s, c);
      DeletedByParts(tree.eager, old(Now()), m, Now(), c, ok);
    }

    method DeleteFile(s: string, ghost c: Path)
      requires tree.Valid() && PlainPath(c) && s == Join(c) && c in tree.fs && !tree.fs[c].directory
      requires tree.fs[c].readonly ==> tree.denied
      modifies this, tree
      ensures tree.Valid() && Deleted(tree.eager, old(Now()), Now(), c)
    {
      NameResolves(c);
      var status := tree.Unlink(s);
      Count(status.Ok?);
      FileDeleted(tree.eager, old(Now()), Now(), c, status.Ok?);
    }

    /** The rest of delete_fn, for the node with that name. */
    method DeleteNode(s: string, info: Info, ghost c: Path)
      requires tree.Valid() && PlainPath(c) && s == Join(c) && c in tree.fs && tree.fs[c] == info
      modifies this, tree
      ensures tree.Valid() && Deleted(tree.eager, old(Now()), Now(), c)
      decreases |Subtree(tree.fs, c)|, 5
    {
      ClearFirst(s, info, c);
      ghost var m := Now();
      if info.directory {
        DeleteDir(s, c);
      } else {
        DeleteFile(s, c);
      }
      DeletedCleared(tree.eager, old(Now()), m, Now(), c);
    }

    /** delete_fn for one entry of the listing of directory p. */
    method DeleteFn(e: Entry, mask: string, ghost p: Path)
      requires tree.Valid() && PlainPath(p) && mask == Join(p + ["*"])
      requires !IsDot(e.name) ==> p + [e.name] in tree.fs && tree.fs[p + [e.name]] == e.info
      modifies this, tree
      ensures tree.Valid()
      ensures if IsDot(e.name) then Now() == old(Now()) else Deleted(tree.eager, old(Now()), Now(), p + [e.name])
      decreases |Subtree(tree.fs, p + [e.name])|, if IsDot(e.name) then 0 else 6
    {
      if IsDot(e.name) {
        return;
      }
      EntryNames(p, e.name);
      DeleteNode(mask[..|mask| - 1] + e.name, e.info, p + [e.name]);
    }

    /** The callback for one entry; a is how things stood before the first. */
    method CallOne(entries: seq<Entry>, i: nat, mask: string, ghost c: Path, ghost a: Snap)
      requires tree.Valid() && PlainPath(c) && mask == Join(c + ["*"]) && i < |entries| && Listed(a.fs, c, entries)
      requires CalledBack(tree.eager, a, Now(), c, entries, i)
      modifies this, tree
      ensures tree.Valid() && CalledBack(tree.eager, a, Now(), c, entries, i + 1)
      decreases |Subtree(a.fs, c)|, 1
    {
      ghost var b := Now();
      EntryStillThere(a.fs, b.fs, c, entries, i);
      EntryIsSmaller(a.fs, b.fs, c, entries[i].name);
      DeleteFn(entries[i], mask, c);
      CalledBackOnce(tree.eager, a, b, Now(), c, entries, i);
    }

    /** The callbacks of one listing. */
    method Callbacks(entries: seq<Entry>, mask: string, ghost c: Path)
      requires tree.Valid() && PlainPath(c) && mask == Join(c + ["*"]) && Listed(tree.fs, c, entries)
      modifies this, tree
      ensures tree.Valid() && CalledBack(tree.eager, old(Now()), Now(), c, entries, |entries|)
      decreases |Subtree(tree.fs, c)|, 2
    {
      ghost var a := Now();
      PassStarts(a.fs, c, entries);
      for i := 0 to |entries|
        invariant tree.Valid() && CalledBack(tree.eager, a, Now(), c, entries, i)
      {
        CallOne(entries, i, mask, c, a);
      }
    }

    /** The wildcard unlink, the listing and the callbacks for the contents of directory c. */
    method EmptyDir(mask: string, ghost c: Path)
      requires tree.Valid() && PlainPath(c) && mask == Join(c + ["*"])
      modifies this, tree
      ensures tree.Valid() && Emptied(tree.eager, old(Now()), Now(), c)
      decreases |Subtree(tree.fs, c)|, 3
    {
      var entries;
      ghost var gone;
      entries, gone := UnlinkAndList(mask, c);
      ghost var m := Now();
      Callbacks(entries, mask, c);
      EmptiedByParts(tree.eager, old(Now()), gone, m, Now(), c, entries);
    }
  }

  predicate ReadonlyFile(fs: Fs, p: Path) {
    p in fs && !fs[p].directory && fs[p].readonly
  }

  /** What the wildcard unlinks took of a tree that is gone. */
  ghost predicate SweptTree(eager: bool, before: Fs, p: Path, s: nat, s': nat) {
    s <= s' && (!WritableBelow(before, p) ==> s' == s) && (eager && WritableBelow(before, p) ==> s' > s)
  }

  /** The top after its contents: gone with everything below it, and then without a failure, or still there. */
  lemma TopRemoved(eager: bool, a: Snap, m: Snap, fs: Fs, p: Path, ok: bool)
    requires WellFormed(fs) && |p| >= 1 && !a.failed && Emptied(eager, a, m, p)
    requires if ok then p in m.fs && fs == m.fs - {p} && !Occupied(m.fs, p) else fs == m.fs
    ensures SameOutside(a.fs, fs, p) && fs.Keys <= a.fs.Keys && (ok ==> p in a.fs && p !in fs)
    ensures ok ==> !m.failed && SweptTree(eager, a.fs, p, a.swept, m.swept) && forall q :: Under(p, q) ==> q !in fs
  {
    RemovedOne(a.fs, m.fs, fs, p);
    if ok {
      GoneBelow(fs, p);
    }
  }

  lemma MaskIs(dname: string)
    ensures dname + "\\*" == Join(Split(dname) + ["*"])
  {
    JoinSplit(dname);
    JoinAppend(Split(dname), ["*"]);
  }

  /** The rest of smbcli_deltree, once the name has turned out not to be a file that can be unlinked. */
  method DelDirectory(tree: Remote, dname: string) returns (r: int)
    requires tree.Valid() && PlainPath(Split(dname))
    modifies tree
    ensures SameOutside(old(tree.fs), tree.fs, Split(dname))
    ensures r >= -1 && (r == -1 <==> Split(dname) in tree.fs || Split(dname) !in old(tree.fs))
    ensures r >= 0 ==> forall q :: Under(Split(dname), q) ==> q !in tree.fs
    ensures r >= 0 ==> r == |old(tree.fs)| - |tree.fs| - (tree.swept - old(tree.swept)) && tree.fs.Keys <= old(tree.fs).Keys
    ensures r >= 0 ==> SweptTree(tree.eager, old(tree.fs), Split(dname), old(tree.swept), tree.swept)
    ensures tree.Valid() && (old(tree.denied) ==> tree.denied)
    ensures !tree.denied && Split(dname) in old(tree.fs) ==> (r >= 0 <==> old(tree.fs)[Split(dname)].directory)
  {
    ghost var p := Split(dname);
    MaskIs(dname);
    var state := new DeleteState(tree);
    ghost var a := state.Now();
    state.EmptyDir(dname + "\\*", p);
    ghost var m := state.Now();
    var ok := tree.Rmdir(dname);
    TopRemoved(tree.eager, a, m, tree.fs, p, ok);
    if !ok {
      return -1;
    }
    assert !state.failed;
    state.totalDeleted := state.totalDeleted + 1;
    r := if state.failed then -1 else state.totalDeleted;
  }

  /**
   smbcli_deltree. A result of zero or more means that nothing is left, and counts the nodes that were there less
   those that wildcard unlinks took: all of them when there was no writable file below the top, and, with a server
   whose wildcard unlinks take what they may, only then. A server that refuses nothing leaves one case of -1: a
   read-only file given as the top.
   */
  method DelTree(tree: Remote, dname: string) returns (r: int)
    requires tree.Valid() && PlainPath(Split(dname))
    modifies tree
    ensures tree.Valid() && SameOutside(old(tree.fs), tree.fs, Split(dname))
    ensures r >= -1 && (Split(dname) in old(tree.fs) ==> (r == -1 <==> Split(dname) in tree.fs))
    ensures Split(dname) !in old(tree.fs) ==> r == 0 || (r == -1 && tree.denied)
    ensures r >= 0 ==> forall q :: Under(Split(dname), q) ==> q !in tree.fs
    ensures r >= 0 ==> r == |Subtree(old(tree.fs), Split(dname))| - (tree.swept - old(tree.swept))
    ensures r >= 0 && !WritableBelow(old(tree.fs), Split(dname)) ==> r == |Subtree(old(tree.fs), Split(dname))|
    ensures r >= 0 && tree.eager && WritableBelow(old(tree.fs), Split(dname)) ==> r < |Subtree(old(tree.fs), Split(dname))|
    ensures !tree.denied ==> (r == -1 <==> ReadonlyFile(old(tree.fs), Split(dname)))
  {
    ghost var p := Split(dname);
    JoinSplit(dname);
    NameResolves(p);
    var status := tree.Unlink(dname);
    RemovedOne(old(tree.fs), old(tree.fs), tree.fs, p);
    if status.Ok? {
      NothingBelowFile(old(tree.fs), p);
      GoneBelow(tree.fs, p);
      CountedAll(old(tree.fs), tree.fs, p);
      return 1;
    }
    if status.NotFound? {
      NothingBelowFile(old(tree.fs), p);
      GoneBelow(tree.fs, p);
      CountedAll(old(tree.fs), tree.fs, p);
      return 0;
    }
    r := DelDirectory(tree, dname);
    if r >= 0 {
      CountedAll(old(tree.fs), tree.fs, p);
    }
  }

  /** A directory with one writable file in it. */
  const SMALL_TREE: Fs := map[[""] := Info(true, false), ["", "d"] := Info(true, false), ["", "d", "f"] := Info(false, false)]

  lemma SmallTreeNames()
    ensures Split("\\d") == ["", "d"] && PlainPath(["", "d"]) && PlainPath(["", "d", "f"])
  {
    SplitAt("", "d");
    SplitName("");
    SplitName("d");
    assert "\\d" == "" + [SEP] + "d";
  }

  lemma SmallTreeWellFormed()
    ensures WellFormed(SMALL_TREE)
  {
    SmallTreeNames();
    assert Parent(["", "d"]) == [""] && Parent(["", "d", "f"]) == ["", "d"];
  }

  lemma SmallTreeFacts()
    ensures WritableBelow(SMALL_TREE, ["", "d"]) && Subtree(SMALL_TREE, ["", "d"]) == {["", "d"], ["", "d", "f"]}
  {
    var d, f := ["", "d"], ["", "d", "f"];
    assert f[..2] == d && Under(d, f) && Under(d, d) && !Under(d, [""]);
    assert WritableFile(SMALL_TREE, f);
  }

  /** Two nodes go, and an eager server that refuses nothing leaves a count of fewer. */
  method CountMissesFile() returns (tree: Remote, r: int)
    ensures tree.denied || (0 <= r < 2 && |Subtree(SMALL_TREE, ["", "d"])| == 2 && tree.fs == SMALL_TREE - {["", "d"], ["", "d", "f"]})
  {
    SmallTreeNames();
    SmallTreeWellFormed();
    SmallTreeFacts();
    tree := new Remote(SMALL_TREE, true);
    r := DelTree(tree, "\\d");
  }
}
