/** A remote file system whose server may refuse any operation, as seen by the recursive delete. */
module RemoteFs {
  import opened Paths

  type Path = seq<string>

  datatype Info = Info(directory: bool, readonly: bool)

  type Fs = map<Path, Info>

  datatype Entry = Entry(name: string, info: Info)

  datatype Status = Ok | NotFound | Refused

  predicate PlainName(name: string) {
    name != "" && SEP !in name && '*' !in name && !IsDot(name)
  }

  /** The part before the first backslash may be empty. */
  predicate PlainPath(p: Path) {
    && |p| >= 1 && SEP !in p[0] && '*' !in p[0]
    && forall i :: 1 <= i < |p| ==> PlainName(p[i])
  }

  function Parent(p: Path): Path
    requires |p| >= 1
  {
    p[..|p| - 1]
  }

  ghost predicate WellFormed(fs: Fs) {
    forall p :: p in fs ==> PlainPath(p) && (|p| > 1 ==> Parent(p) in fs && fs[Parent(p)].directory)
  }

  /** q is p or lies below it. */
  predicate Under(p: Path, q: Path) {
    p <= q
  }

  /** Something lies below p. */
  predicate Occupied(fs: Fs, p: Path) {
    exists q :: q in fs && Under(p, q) && q != p
  }

  ghost function Subtree(fs: Fs, p: Path): set<Path> {
    set q | q in fs && Under(p, q)
  }

  /** The two file systems agree on everything that is not at or below p. */
  ghost predicate SameOutside(a: Fs, b: Fs, p: Path) {
    forall q :: !Under(p, q) ==> (q in a <==> q in b) && (q in a ==> a[q] == b[q])
  }

  /** Nodes went, if any, only at or below p. */
  ghost predicate Within(a: Fs, b: Fs, p: Path) {
    b.Keys <= a.Keys && SameOutside(a, b, p)
  }

  lemma WithinTwice(a: Fs, b: Fs, c: Fs, p: Path)
    requires Within(a, b, p) && Within(b, c, p)
    ensures Within(a, c, p)
  {
  }

  ghost predicate SameWithin(a: Fs, b: Fs, p: Path) {
    forall q :: Under(p, q) ==> (q in a <==> q in b) && (q in a ==> a[q] == b[q])
  }

  lemma {:induction false} AncestorExists(fs: Fs, p: Path, q: Path)
    requires WellFormed(fs) && q in fs && Under(p, q) && |p| >= 1
    ensures p in fs
    decreases |q|
  {
    if |q| == |p| {
      assert p == q;
    } else {
      AncestorExists(fs, p, Parent(q));
    }
  }

  /** Whatever lies below p lies at or below a child of p. */
  lemma ChildOnTheWay(fs: Fs, p: Path, q: Path)
    requires WellFormed(fs) && q in fs && Under(p, q) && |q| > |p| >= 1
    ensures p + [q[|p|]] in fs && Under(p + [q[|p|]], q)
  {
    AncestorExists(fs, p + [q[|p|]], q);
  }

  lemma RemoveKeepsWellFormed(fs: Fs, gone: set<Path>)
    requires WellFormed(fs)
    requires forall p, q :: p in gone && q in fs && Under(p, q) && p != q ==> q in gone
    ensures WellFormed(fs - gone)
  {
    forall q | q in fs - gone && |q| > 1
      ensures Parent(q) in fs - gone
    {
      assert Under(Parent(q), q);
    }
  }

  /** A file that a wildcard unlink may take. */
  predicate WritableFile(fs: Fs, q: Path) {
    q in fs && !fs[q].directory && !fs[q].readonly
  }

  predicate Files(fs: Fs, dir: Path, gone: set<Path>) {
    forall q :: q in gone ==> WritableFile(fs, q) && |q| > 1 && Parent(q) == dir
  }

  function AllFiles(fs: Fs, dir: Path): set<Path> {
    set q | q in fs && WritableFile(fs, q) && |q| > 1 && Parent(q) == dir
  }

  /** Some file strictly below p can be taken by a wildcard unlink. */
  ghost predicate WritableBelow(fs: Fs, p: Path) {
    exists q :: WritableFile(fs, q) && Under(p, q) && q != p
  }

  lemma FewerNodes(fs: Fs, gone: set<Path>)
    requires gone <= fs.Keys
    ensures |fs - gone| == |fs| - |gone|
  {
    assert (fs - gone).Keys == fs.Keys - gone;
    assert |(fs - gone).Keys| == |fs - gone| && |fs.Keys| == |fs|;
  }

  /** Besides "." and "..", distinct names of nodes that exist in the directory. */
  predicate Listed(fs: Fs, dir: Path, entries: seq<Entry>) {
    && (forall i :: 0 <= i < |entries| && !IsDot(entries[i].name) ==>
          dir + [entries[i].name] in fs && fs[dir + [entries[i].name]] == entries[i].info)
    && (forall i, j :: 0 <= i < j < |entries| ==> entries[i].name != entries[j].name)
  }

  predicate Complete(fs: Fs, dir: Path, entries: seq<Entry>) {
    forall q :: q in fs && |q| > 1 && Parent(q) == dir ==> Entry(q[|q| - 1], fs[q]) in entries
  }

  lemma FileHasNoChildren(fs: Fs, p: Path, q: Path)
    requires WellFormed(fs) && p in fs && !fs[p].directory && q in fs && Under(p, q)
    ensures q == p
  {
    if |q| > |p| {
      ChildOnTheWay(fs, p, q);
      assert false;
    }
  }

  class Remote {
    var fs: Fs
    const eager: bool       // a wildcard unlink takes all the files it may take
    ghost var swept: nat    // how many nodes wildcard unlinks have removed
    ghost var denied: bool  // some operation that could have worked was refused

    ghost predicate Valid()
      reads this
    {
      WellFormed(fs)
    }

    constructor (fs: Fs, eager: bool)
      requires WellFormed(fs)
      ensures Valid() && this.fs == fs && this.eager == eager && swept == 0 && !denied
    {
      this.eager := eager;
      this.fs, swept, denied := fs, 0, false;
    }

    /** Unlink of one name: it removes that file or nothing. */
    method Unlink(name: string) returns (status: Status)
      requires Valid() && '*' !in name
      modifies this
      ensures Valid() && swept == old(swept) && (old(denied) ==> denied)
      ensures |fs| == |old(fs)| - (if status.Ok? then 1 else 0)
      ensures var p := Split(name);
              && (status.Ok? ==> p in old(fs) && !old(fs)[p].directory && !old(fs)[p].readonly && fs == old(fs) - {p})
              && (!status.Ok? ==> fs == old(fs))
              && (status.NotFound? ==> p !in old(fs))
              && (status.Refused? ==> denied || (p in old(fs) && (old(fs)[p].readonly || old(fs)[p].directory)))
    {
      var p := Split(name);
      var refuse: bool := *;
      if refuse {
        denied := true;
        return Refused;
      }
      if p !in fs {
        return NotFound;
      }
      if fs[p].directory || fs[p].readonly {
        return Refused;
      }
      forall q | q in fs && Under(p, q)
        ensures q == p
      {
        FileHasNoChildren(fs, p, q);
      }
      RemoveKeepsWellFormed(fs, {p});
      FewerNodes(fs, {p});
      fs := fs - {p};
      return Ok;
    }

    /** Unlink of dir\*: an arbitrary set of the files in that directory goes, or all of them. */
    method UnlinkAll(mask: string) returns (ghost gone: set<Path>)
      requires Valid()
      modifies this
      ensures Valid() && denied == old(denied)
      ensures Files(old(fs), Parent(Split(mask)), gone)
      ensures eager ==> gone == AllFiles(old(fs), Parent(Split(mask)))
      ensures fs == old(fs) - gone && swept - old(swept) == |old(fs)| - |fs| == |gone|
    {
      var dir := Parent(Split(mask));
      assert Files(fs, dir, {});
      assert Files(fs, dir, AllFiles(fs, dir));
      var chosen: set<Path> :| Files(fs, dir, chosen) && (eager ==> chosen == AllFiles(fs, dir));
      gone := chosen;
      assert Files(fs, dir, gone);
      forall p, q | p in chosen && q in fs && Under(p, q)
        ensures q == p
      {
        FileHasNoChildren(fs, p, q);
      }
      RemoveKeepsWellFormed(fs, chosen);
      FewerNodes(fs, chosen);
      fs, swept := fs - chosen, swept + |gone|;
    }

    /** Removal of a directory: only an empty one can go. */
    method Rmdir(name: string) returns (ok: bool)
      requires Valid()
      modifies this
      ensures Valid() && swept == old(swept) && (old(denied) ==> denied)
      ensures |fs| == |old(fs)| - (if ok then 1 else 0)
      ensures var p := Split(name);
              && (ok ==> p in old(fs) && old(fs)[p].directory && fs == old(fs) - {p} && !Occupied(old(fs), p))
              && (!ok ==> fs == old(fs))
              && (!ok && !denied ==> p !in old(fs) || !old(fs)[p].directory || Occupied(old(fs), p))
    {
      var p := Split(name);
      var refuse: bool := *;
      if refuse {
        denied := true;
        return false;
      }
      if p !in fs || !fs[p].directory || Occupied(fs, p) {
        return false;
      }
      RemoveKeepsWellFormed(fs, {p});
      FewerNodes(fs, {p});
      fs := fs - {p};
      return true;
    }

    /** Clears the read-only attribute, or does nothing. */
    method ClearReadonly(name: string)
      requires Valid()
      modifies this
      ensures Valid() && swept == old(swept) && |fs| == |old(fs)| && (old(denied) ==> denied)
      ensures fs.Keys == old(fs).Keys && Within(old(fs), fs, Split(name))
      ensures var p := Split(name);
              p in fs ==> fs[p].directory == old(fs)[p].directory && (!denied ==> !fs[p].readonly)
      ensures forall q :: q in fs && q != Split(name) ==> fs[q] == old(fs)[q]
    {
      var p := Split(name);
      var refuse: bool := *;
      if refuse {
        denied := true;
      } else if p in fs {
        assert Under(p, p);
        fs := fs[p := Info(fs[p].directory, false)];
        assert fs.Keys == old(fs).Keys;
      }
    }

    /** Lists a directory: any distinct entries that exist; all of them unless the server refuses. */
    method List(mask: string) returns (entries: seq<Entry>)
      requires Valid()
      modifies this`denied
      ensures old(denied) ==> denied
      ensures Listed(fs, Parent(Split(mask)), entries)
      ensures !denied ==> Complete(fs, Parent(Split(mask)), entries)
    {
      var dir := Parent(Split(mask));
      assert Listed(fs, dir, []);
      entries :| Listed(fs, dir, entries);
      denied := denied || !Complete(fs, dir, entries);
    }
  }
}
