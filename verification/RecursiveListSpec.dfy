/** What the breadth-first log of a recursive listing amounts to: every admitted entry, exactly once. */
module RecursiveListSpec {
  import opened Wrappers
  import opened Paths
  import ListQueue
  import opened RemoteTree
  import opened RecursiveList

  /** A recursive listing, from any directory and pattern: by depth, without repetition, exactly the directories reachable from there. */
  lemma WholeTreeVisited(share: Share, path: seq<string>, pattern: string)
    requires WellFormed(share.root) && LegalPath(path) && LegalPattern(pattern)
    ensures var start := Start(share, path, pattern);
            var order := LevelOrder([start]);
            && (forall i, j :: 0 <= i < j < |order| ==> |order[i].path| <= |order[j].path|)
            && Distinct(order)
            && (forall x :: x in order <==> LeadsTo(start, x))
  {
    var start := Start(share, path, pattern);
    StartSound(share, path, pattern);
    DepthNeverDrops([start], |path|);
    VisitedOnce([start], |path|);
    forall x
      ensures x in LevelOrder([start]) <==> LeadsTo(start, x)
    {
      VisitedIffReachable([start], x);
      assert start in [start];
    }
  }

  lemma {:induction false} NoDotsOnTheWay(root: Node, path: seq<string>)
    requires Resolve(root, path).Some?
    ensures forall i :: 0 <= i < |path| ==> path[i] != "." && path[i] != ".."
    decreases |path|
  {
    if path != [] {
      FindKidFinds(Kids(root), path[0]);
      NoDotsOnTheWay(FindKid(Kids(root), path[0]).value, path[1..]);
      assert path == [path[0]] + path[1..];
    }
  }

  lemma KidLedTo(start: Visit, x: Visit, k: Node)
    requires WellFormed(x.node) && LeadsTo(start, x) && k in Kids(x.node) && Followed(k)
    ensures LeadsTo(start, Visit(x.path + [k.info.name], k, "*"))
  {
    var rel := x.path[|start.path|..];
    FindKidIs(Kids(x.node), k);
    ResolveStep(start.node, rel, k);
    assert (x.path + [k.info.name])[|start.path|..] == rel + [k.info.name];
  }

  lemma NoDotsBelow(start: Visit, x: Visit)
    requires LeadsTo(start, x)
    ensures start.path <= x.path && forall i :: |start.path| <= i < |x.path| ==> x.path[i] != "." && x.path[i] != ".."
  {
    var rel := x.path[|start.path|..];
    NoDotsOnTheWay(start.node, rel);
    assert forall i :: |start.path| <= i < |x.path| ==> x.path[i] == rel[i - |start.path|];
  }

  lemma KidsVisited(start: Visit, order: seq<Visit>, x: Visit)
    requires LeadsTo(start, x) && WellFormed(x.node) && forall y :: y in order <==> LeadsTo(start, y)
    ensures forall k :: k in Kids(x.node) && k.info.directory && k.info.name != "." && k.info.name != ".." ==>
              Visit(x.path + [k.info.name], k, "*") in order
  {
    forall k | k in Kids(x.node) && k.info.directory && k.info.name != "." && k.info.name != ".."
      ensures Visit(x.path + [k.info.name], k, "*") in order
    {
      KidLedTo(start, x, k);
    }
  }

  /** Every subdirectory of a visited directory is visited, and "." and ".." never are. */
  lemma NothingMissed(share: Share, path: seq<string>, pattern: string, x: Visit)
    requires WellFormed(share.root) && LegalPath(path) && LegalPattern(pattern)
    requires x in LevelOrder([Start(share, path, pattern)])
    ensures forall k :: k in Kids(x.node) && k.info.directory && k.info.name != "." && k.info.name != ".." ==>
              Visit(x.path + [k.info.name], k, "*") in LevelOrder([Start(share, path, pattern)])
    ensures path <= x.path && forall i :: |path| <= i < |x.path| ==> x.path[i] != "." && x.path[i] != ".."
  {
    var start := Start(share, path, pattern);
    StartSound(share, path, pattern);
    WholeTreeVisited(share, path, pattern);
    LeadsToLegal(share, start, x);
    NoDotsBelow(start, x);
    KidsVisited(start, LevelOrder([start]), x);
  }

  // ----- the headers -----

  function Headers(log: seq<Event>): seq<string> {
    if log == [] then [] else (if log[0].Header? then [log[0].dir] else []) + Headers(log[1..])
  }

  lemma {:induction false} HeadersAppend(a: seq<Event>, b: seq<Event>)
    ensures Headers(a + b) == Headers(a) + Headers(b)
  {
    if a == [] {
      assert a + b == b;
    } else {
      assert (a + b)[1..] == a[1..] + b;
      HeadersAppend(a[1..], b);
    }
  }

  lemma {:induction false} NoHeaders(o: Options, mask: string, fs: seq<FileInfo>)
    ensures Headers(Calls(o, mask, fs)) == []
  {
    if fs != [] {
      NoHeaders(o, mask, fs[1..]);
      HeadersAppend(if Admitted(o, fs[0]) then [Listed(mask, fs[0])] else [], Calls(o, mask, fs[1..]));
      assert [Listed(mask, fs[0])][1..] == [];
    }
  }

  /** The header of a directory listed whole is its name. */
  lemma LabelNames(path: seq<string>)
    ensures ListQueue.LabelOf(MaskOf(path, "*")) == Join([""] + path)
  {
    JoinAppend([""] + path, ["*"]);
    var name, mask := Join([""] + path), MaskOf(path, "*");
    assert mask == name + "\\*";
    assert mask[|mask| - 2..] == "\\*" && mask[..|mask| - 2] == name;
  }

  /** The names of the directories after the first. */
  function LaterNames(order: seq<Visit>): seq<string> {
    if |order| <= 1 then [] else LaterNames(order[..|order| - 1]) + [Join([""] + order[|order| - 1].path)]
  }

  lemma HeaderNames(o: Options, v: Visit)
    requires v.pattern == "*"
    ensures Headers(HeaderOf(o, v)) == if o.display then [Join([""] + v.path)] else []
  {
    LabelNames(v.path);
    if o.display {
      assert HeaderOf(o, v)[1..] == [];
    }
  }

  /** The last visit adds its header, unless it is the first. */
  lemma HeadersStep(o: Options, order: seq<Visit>, before: seq<Visit>, v: Visit)
    requires order != [] && before == order[..|order| - 1] && v == order[|order| - 1] && (before != [] ==> v.pattern == "*")
    ensures Headers(Log(o, order)) ==
            Headers(Log(o, before)) + (if before != [] && o.display then [Join([""] + v.path)] else [])
  {
    var header := if before != [] then HeaderOf(o, v) else [];
    var calls := Calls(o, MaskOf(v.path, v.pattern), Infos(Kids(v.node)));
    NoHeaders(o, MaskOf(v.path, v.pattern), Infos(Kids(v.node)));
    HeadersAppend(Log(o, before) + header, calls);
    HeadersAppend(Log(o, before), header);
    if before != [] {
      HeaderNames(o, v);
    }
  }

  lemma {:induction false} HeadersOfLog(o: Options, order: seq<Visit>)
    requires forall i :: 1 <= i < |order| ==> order[i].pattern == "*"
    ensures Headers(Log(o, order)) == if o.display then LaterNames(order) else []
  {
    if order != [] {
      var before, v := order[..|order| - 1], order[|order| - 1];
      HeadersOfLog(o, before);
      HeadersStep(o, order, before, v);
    }
  }

  /** A recursive listing that displays prints the name of every directory but the first, in the order of the visits. */
  lemma HeadersAre(o: Options, share: Share, path: seq<string>, pattern: string)
    requires WellFormed(share.root) && LegalPath(path) && LegalPattern(pattern)
    ensures var order := LevelOrder([Start(share, path, pattern)]);
            Headers(Log(o, order)) == if o.display then LaterNames(order) else []
  {
    var start := Start(share, path, pattern);
    var order := LevelOrder([start]);
    WholeTreeVisited(share, path, pattern);
    forall i | 1 <= i < |order|
      ensures order[i].pattern == "*"
    {
      assert order[0] == start && order[i] in order && order[i].path != order[0].path;
      LeadsToIs(start, order[i]);
    }
    HeadersOfLog(o, order);
  }

  /** What the options ask for: directories if they are to be listed, and files that match, are new enough and have the archive bit where it counts. */
  predicate Wanted(o: Options, f: FileInfo) {
    if f.directory then o.dirs
    else
      && (o.filter.selection == None || o.filter.selection.value(f.name))
      && (o.filter.newerThan == 0 || o.filter.newerThan <= f.mtime)
      && (o.filter.archiveLevel == 1 || o.filter.archiveLevel == 2 ==> f.archive)
  }

  lemma AdmittedIs(o: Options, f: FileInfo)
    ensures Admitted(o, f) <==> Wanted(o, f)
  {
  }

  lemma {:induction false} CallsCount(o: Options, mask: string, fs: seq<FileInfo>, e: Event)
    requires e.Listed?
    ensures multiset(Calls(o, mask, fs))[e]
         == if e.mask == mask && Admitted(o, e.info) then multiset(fs)[e.info] else 0
  {
    if fs != [] {
      CallsCount(o, mask, fs[1..], e);
      assert fs == [fs[0]] + fs[1..];
    }
  }

  lemma FirstNotRepeated(kids: seq<Node>)
    requires kids != [] && forall i, j :: 0 <= i < j < |kids| ==> kids[i].info.name != kids[j].info.name
    ensures kids[0].info !in Infos(kids[1..])
  {
    forall f | f in Infos(kids[1..])
      ensures f != kids[0].info
    {
      InfosIn(kids[1..], f);
      var k :| k in kids[1..] && k.info == f;
      var i :| 1 <= i < |kids| && kids[i] == k;
    }
  }

  lemma {:induction false} InfosOnce(kids: seq<Node>, f: FileInfo)
    requires forall i, j :: 0 <= i < j < |kids| ==> kids[i].info.name != kids[j].info.name
    ensures multiset(Infos(kids))[f] == if f in Infos(kids) then 1 else 0
  {
    if kids != [] {
      InfosOnce(kids[1..], f);
      assert Infos(kids) == [kids[0].info] + Infos(kids[1..]);
      FirstNotRepeated(kids);
    }
  }

  predicate Legal(v: Visit) {
    LegalPath(v.path) && LegalPattern(v.pattern)
  }

  lemma MaskIsInjective(v: Visit, w: Visit)
    requires Legal(v) && Legal(w) && MaskOf(v.path, v.pattern) == MaskOf(w.path, w.pattern)
    ensures v.path == w.path && v.pattern == w.pattern
  {
    PathOfMask(v.path, v.pattern);
    PathOfMask(w.path, w.pattern);
  }

  ghost predicate Concerns(o: Options, v: Visit, e: Event)
    requires e.Listed?
  {
    e.mask == MaskOf(v.path, v.pattern) && Admitted(o, e.info) && e.info in Infos(Kids(v.node))
  }

  lemma LogCountStep(o: Options, before: seq<Visit>, v: Visit, e: Event)
    requires e.Listed? && WellFormed(v.node)
    ensures multiset(Log(o, before + [v]))[e] == multiset(Log(o, before))[e] + (if Concerns(o, v, e) then 1 else 0)
  {
    var fs := Infos(Kids(v.node));
    CallsCount(o, MaskOf(v.path, v.pattern), fs, e);
    InfosOnce(Kids(v.node), e.info);
    assert (before + [v])[..|before|] == before;
    var header := if before != [] then HeaderOf(o, v) else [];
    assert Log(o, before + [v]) == Log(o, before) + header + Calls(o, MaskOf(v.path, v.pattern), fs);
    assert multiset(header)[e] == 0;
  }

  ghost predicate Due(o: Options, order: seq<Visit>, e: Event)
    requires e.Listed?
  {
    exists i :: 0 <= i < |order| && Concerns(o, order[i], e)
  }

  lemma DueStep(o: Options, before: seq<Visit>, v: Visit, e: Event)
    requires e.Listed?
    ensures Due(o, before + [v], e) <==> Due(o, before, e) || Concerns(o, v, e)
  {
    var order := before + [v];
    assert order[|before|] == v;
    if Due(o, before, e) {
      var i :| 0 <= i < |before| && Concerns(o, before[i], e);
      assert Concerns(o, order[i], e);
    }
  }

  predicate AllLegal(order: seq<Visit>) {
    forall i :: 0 <= i < |order| ==> Legal(order[i])
  }

  lemma NotDueTwice(o: Options, before: seq<Visit>, v: Visit, e: Event)
    requires e.Listed? && Distinct(before + [v]) && AllLegal(before) && Legal(v)
    ensures !(Due(o, before, e) && Concerns(o, v, e))
  {
    if Due(o, before, e) && Concerns(o, v, e) {
      var i :| 0 <= i < |before| && Concerns(o, before[i], e);
      assert (before + [v])[i].path != (before + [v])[|before|].path;
      MaskIsInjective(before[i], v);
      assert false;
    }
  }

  ghost predicate CountedOnce(o: Options, order: seq<Visit>, e: Event)
    requires e.Listed?
  {
    multiset(Log(o, order))[e] == if Due(o, order, e) then 1 else 0
  }

  lemma {:induction false} LogCountMore(o: Options, before: seq<Visit>, v: Visit, e: Event)
    requires e.Listed? && Distinct(before + [v]) && AllLegal(before) && Legal(v) && WellFormed(v.node)
    requires CountedOnce(o, before, e)
    ensures CountedOnce(o, before + [v], e)
  {
    LogCountStep(o, before, v, e);
    DueStep(o, before, v, e);
    NotDueTwice(o, before, v, e);
  }

  /** Each callback in the log of distinct visits happens once, and belongs to an admitted entry of a visited directory. */
  lemma {:induction false} LogCount(o: Options, order: seq<Visit>, e: Event)
    requires e.Listed? && Distinct(order) && AllWellFormed(order) && AllLegal(order)
    ensures CountedOnce(o, order, e)
  {
    if order != [] {
      var n := |order| - 1;
      var v, before := order[n], order[..n];
      assert order == before + [v];
      LogCount(o, before, e);
      LogCountMore(o, before, v, e);
    }
  }

  lemma {:induction false} ResolvedPathLegal(root: Node, path: seq<string>)
    requires WellFormed(root) && Resolve(root, path).Some?
    ensures LegalPath(path)
    decreases |path|
  {
    if path != [] {
      FindKidFinds(Kids(root), path[0]);
      ResolvedPathLegal(FindKid(Kids(root), path[0]).value, path[1..]);
      assert path == [path[0]] + path[1..];
    }
  }

  /** The directory at a path, seen from where a listing starts. */
  function Below(start: Visit, path: seq<string>): Option<Node> {
    if start.path <= path then Resolve(start.node, path[|start.path|..]) else None
  }

  function PatternAt(start: Visit, path: seq<string>): string {
    if path == start.path then start.pattern else "*"
  }

  lemma LegalBoth(p: seq<string>, q: seq<string>)
    requires LegalPath(p) && LegalPath(q)
    ensures LegalPath(p + q)
  {
  }

  lemma {:induction false} LeadsToIs(start: Visit, x: Visit)
    requires LeadsTo(start, x)
    ensures x.path == start.path + x.path[|start.path|..]
    ensures Below(start, x.path) == Some(x.node) && x.pattern == PatternAt(start, x.path)
  {
    if |x.path| == |start.path| {
      assert x.path == start.path;
    }
  }

  lemma {:induction false} LeadsToLegal(share: Share, start: Visit, x: Visit)
    requires Sound(share, start) && LeadsTo(start, x)
    ensures Legal(x) && WellFormed(x.node) && Below(start, x.path) == Some(x.node) && x.pattern == PatternAt(start, x.path)
  {
    var rel := x.path[|start.path|..];
    LeadsToIs(start, x);
    ResolvedPathLegal(start.node, rel);
    ResolveWellFormed(start.node, rel);
    LegalBoth(start.path, rel);
  }

  lemma BelowIsVisited(start: Visit, path: seq<string>)
    requires Below(start, path).Some?
    ensures LeadsTo(start, Visit(path, Below(start, path).value, PatternAt(start, path)))
  {
    if |path| == |start.path| {
      assert path == start.path;
    }
  }

  lemma OrderIsLegal(share: Share, start: Visit, order: seq<Visit>)
    requires Sound(share, start) && forall x :: x in order ==> LeadsTo(start, x)
    ensures AllLegal(order) && AllWellFormed(order)
  {
    forall i | 0 <= i < |order|
      ensures Legal(order[i]) && WellFormed(order[i].node)
    {
      LeadsToLegal(share, start, order[i]);
    }
  }

  /** The callback of an admitted entry is due, at the place of its directory in the order. */
  lemma DueThere(o: Options, start: Visit, order: seq<Visit>, i: nat, path: seq<string>, f: FileInfo)
    requires i < |order| && order[i].path == path && order[i].pattern == PatternAt(start, path)
    requires f in Infos(Kids(order[i].node)) && Admitted(o, f)
    ensures Due(o, order, Listed(MaskOf(path, PatternAt(start, path)), f))
  {
    assert Concerns(o, order[i], Listed(MaskOf(path, PatternAt(start, path)), f));
  }

  /** The directory that a due callback concerns is the one at its path. */
  lemma DueFrom(o: Options, share: Share, start: Visit, v: Visit, path: seq<string>, f: FileInfo)
    requires Sound(share, start) && LegalPath(path) && LeadsTo(start, v)
    requires Concerns(o, v, Listed(MaskOf(path, PatternAt(start, path)), f))
    ensures Below(start, path) == Some(v.node) && f in Infos(Kids(v.node)) && Admitted(o, f)
  {
    LeadsToLegal(share, start, v);
    MaskIsInjective(v, Visit(path, v.node, PatternAt(start, path)));
  }

  /** A callback is due exactly for the admitted entries of the directory that the path leads to. */
  lemma DueIs(o: Options, share: Share, start: Visit, order: seq<Visit>, path: seq<string>, f: FileInfo)
    requires Sound(share, start) && LegalPath(path) && forall x :: x in order <==> LeadsTo(start, x)
    ensures Due(o, order, Listed(MaskOf(path, PatternAt(start, path)), f)) <==>
            Below(start, path).Some? && f in Infos(Kids(Below(start, path).value)) && Admitted(o, f)
  {
    var e := Listed(MaskOf(path, PatternAt(start, path)), f);
    if Due(o, order, e) {
      var i :| 0 <= i < |order| && Concerns(o, order[i], e);
      assert order[i] in order;
      DueFrom(o, share, start, order[i], path, f);
    }
    if Below(start, path).Some? && f in Infos(Kids(Below(start, path).value)) && Admitted(o, f) {
      BelowIsVisited(start, path);
      var x := Visit(path, Below(start, path).value, PatternAt(start, path));
      assert x in order;
      var i :| 0 <= i < |order| && order[i] == x;
      DueThere(o, start, order, i, path, f);
    }
  }

  /**
   Wherever the listing starts, and with whatever pattern: the callback runs exactly once for each admitted entry of
   each directory reachable from there, and for nothing else.
   */
  lemma CalledExactlyOnce(o: Options, share: Share, from: seq<string>, pattern: string, path: seq<string>, f: FileInfo)
    requires WellFormed(share.root) && LegalPath(from) && LegalPattern(pattern) && LegalPath(path)
    ensures var start := Start(share, from, pattern);
            var due := Below(start, path).Some? && f in Infos(Kids(Below(start, path).value)) && Wanted(o, f);
            multiset(Log(o, LevelOrder([start])))[Listed(MaskOf(path, PatternAt(start, path)), f)] == if due then 1 else 0
  {
    var start := Start(share, from, pattern);
    var order := LevelOrder([start]);
    StartSound(share, from, pattern);
    WholeTreeVisited(share, from, pattern);
    OrderIsLegal(share, start, order);
    LogCount(o, order, Listed(MaskOf(path, PatternAt(start, path)), f));
    DueIs(o, share, start, order, path, f);
    AdmittedIs(o, f);
  }
}
