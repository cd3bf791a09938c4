/** do_list and do_list_helper of smbclient: the recursive listing driven by the packed string queue. */
module RecursiveList {
  import opened Wrappers
  import opened Paths
  import opened CStrings
  import opened RemoteTree
  import ListQueue

  /** A remote tree, and how its server matches a name against a pattern; every name matches the star. */
  datatype Share = Share(root: Node, matches: (string, string) -> bool)

  /** The mask that lists the directory at the given path with the given pattern. */
  function MaskOf(path: seq<string>, pattern: string): string {
    Join([""] + path + [pattern])
  }

  /** How the server reads a mask of that form. */
  function PathOf(mask: string): Option<(seq<string>, string)> {
    var cs := Split(mask);
    if |cs| >= 2 && cs[0] == "" then Some((cs[1..|cs| - 1], cs[|cs| - 1])) else None
  }

  predicate LegalPattern(pattern: string) {
    SEP !in pattern && NUL !in pattern
  }

  predicate LegalPath(path: seq<string>) {
    forall i :: 0 <= i < |path| ==> LegalName(path[i])
  }

  /** A mask names one directory and one pattern. */
  lemma PathOfMask(path: seq<string>, pattern: string)
    requires LegalPath(path) && LegalPattern(pattern)
    ensures PathOf(MaskOf(path, pattern)) == Some((path, pattern))
  {
    var cs := [""] + path + [pattern];
    SplitJoin(cs);
    assert cs[1..|cs| - 1] == path;
  }

  lemma {:induction false} JoinNulFree(cs: seq<string>)
    requires |cs| >= 1 && forall i :: 0 <= i < |cs| ==> NUL !in cs[i]
    ensures NUL !in Join(cs)
  {
    if |cs| > 1 {
      JoinNulFree(cs[1..]);
    }
  }

  function Infos(kids: seq<Node>): seq<FileInfo> {
    if kids == [] then [] else [kids[0].info] + Infos(kids[1..])
  }

  function Select(share: Share, pattern: string, kids: seq<Node>): seq<Node> {
    if kids == [] then []
    else (if pattern == "*" || share.matches(pattern, kids[0].info.name) then [kids[0]] else []) + Select(share, pattern, kids[1..])
  }

  /** A directory with only the entries that match the pattern. */
  function Selected(share: Share, dir: Node, pattern: string): Node {
    Node(dir.info, dir.listable, Select(share, pattern, dir.children))
  }

  lemma {:induction false} SelectIn(share: Share, pattern: string, kids: seq<Node>)
    ensures forall k :: k in Select(share, pattern, kids) <==> k in kids && (pattern == "*" || share.matches(pattern, k.info.name))
    ensures pattern == "*" ==> Select(share, pattern, kids) == kids
  {
    if kids != [] {
      SelectIn(share, pattern, kids[1..]);
      assert kids == [kids[0]] + kids[1..];
    }
  }

  predicate DistinctNames(kids: seq<Node>) {
    forall i, j :: 0 <= i < j < |kids| ==> kids[i].info.name != kids[j].info.name
  }

  lemma {:induction false} SelectDistinct(share: Share, pattern: string, kids: seq<Node>)
    requires DistinctNames(kids)
    ensures DistinctNames(Select(share, pattern, kids))
  {
    if kids != [] {
      SelectDistinct(share, pattern, kids[1..]);
      SelectIn(share, pattern, kids[1..]);
      var rest := Select(share, pattern, kids[1..]);
      forall j | 0 <= j < |rest|
        ensures rest[j].info.name != kids[0].info.name
      {
        assert rest[j] in kids[1..];
        var i :| 1 <= i < |kids| && kids[i] == rest[j];
      }
    }
  }

  lemma SelectedWellFormed(share: Share, dir: Node, pattern: string)
    requires WellFormed(dir)
    ensures WellFormed(Selected(share, dir, pattern))
  {
    SelectDistinct(share, pattern, dir.children);
    SelectIn(share, pattern, dir.children);
    var chosen := Select(share, pattern, dir.children);
    forall i | 0 <= i < |chosen|
      ensures LegalName(chosen[i].info.name) && WellFormed(chosen[i])
    {
      assert chosen[i] in dir.children;
    }
  }

  /** What smbcli_list delivers for a mask; nothing when the listing fails. */
  function Listing(share: Share, mask: string): seq<FileInfo> {
    match PathOf(mask)
    case None => []
    case Some((path, pattern)) =>
      match Resolve(share.root, path)
      case None => []
      case Some(dir) => Infos(Kids(Selected(share, dir, pattern)))
  }

  /** The part of a mask up to and including its last backslash. */
  function DirPart(mask: string): Option<string> {
    if mask == "" then None
    else if mask[|mask| - 1] == SEP then Some(mask)
    else DirPart(mask[..|mask| - 1])
  }

  function SubMask(mask: string, name: string): Option<string> {
    match DirPart(mask)
    case None => None
    case Some(dir) => Some(dir + name + "\\*")
  }

  lemma {:induction false} DirPartSkips(dir: string, pattern: string)
    requires dir != "" && dir[|dir| - 1] == SEP && SEP !in pattern
    ensures DirPart(dir + pattern) == Some(dir)
  {
    if pattern == "" {
      assert dir + pattern == dir;
    } else {
      var shorter := pattern[..|pattern| - 1];
      assert (dir + pattern)[..|dir + pattern| - 1] == dir + shorter;
      DirPartSkips(dir, shorter);
    }
  }

  /** The mask queued for a subdirectory is the mask of that subdirectory. */
  lemma SubMaskNames(path: seq<string>, pattern: string, name: string)
    requires SEP !in pattern
    ensures SubMask(MaskOf(path, pattern), name) == Some(MaskOf(path + [name], "*"))
  {
    var dir := Join([""] + path) + [SEP];
    assert DirPart(MaskOf(path, pattern)) == Some(dir) by {
      JoinAppend([""] + path, [pattern]);
      DirPartSkips(dir, pattern);
    }
    assert MaskOf(path + [name], "*") == dir + (name + "\\*") by {
      JoinAppend([""] + path, [name, "*"]);
      assert [""] + path + [name, "*"] == [""] + (path + [name]) + ["*"];
      assert [name, "*"][1..] == ["*"];
      assert name + [SEP] + "*" == name + "\\*";
    }
    assert dir + name + "\\*" == dir + (name + "\\*");
  }

  /** do_this_one, with the wildcard match left as a function of the name. */
  datatype Filter = Filter(selection: Option<string -> bool>, newerThan: int, archiveLevel: int)

  predicate Selects(filter: Filter, f: FileInfo) {
    f.directory
    || !((filter.selection.Some? && !filter.selection.value(f.name))
         || (filter.newerThan != 0 && f.mtime < filter.newerThan)
         || ((filter.archiveLevel == 1 || filter.archiveLevel == 2) && !f.archive))
  }

  datatype Event = Header(dir: string) | Listed(mask: string, info: FileInfo)

  datatype Options = Options(filter: Filter, dirs: bool, display: bool)

  /** The entries the callback is for: directories when asked for, files that the filter selects. */
  predicate Admitted(o: Options, f: FileInfo) {
    if f.directory then o.dirs && Selects(o.filter, f) else Selects(o.filter, f)
  }

  function Calls(o: Options, mask: string, fs: seq<FileInfo>): seq<Event> {
    if fs == [] then []
    else (if Admitted(o, fs[0]) then [Listed(mask, fs[0])] else []) + Calls(o, mask, fs[1..])
  }

  function HeaderOf(o: Options, v: Visit): seq<Event> {
    if o.display then [Header(ListQueue.LabelOf(MaskOf(v.path, v.pattern)))] else []
  }

  /** The log of a run that visits these directories: a header before each but the first, and its callbacks. */
  function Log(o: Options, order: seq<Visit>): seq<Event> {
    if order == [] then []
    else
      var v := order[|order| - 1];
      Log(o, order[..|order| - 1])
      + (if |order| > 1 then HeaderOf(o, v) else [])
      + Calls(o, MaskOf(v.path, v.pattern), Infos(Kids(v.node)))
  }

  function Masks(vs: seq<Visit>): seq<string> {
    if vs == [] then [] else [MaskOf(vs[0].path, vs[0].pattern)] + Masks(vs[1..])
  }

  lemma {:induction false} MasksAppend(a: seq<Visit>, b: seq<Visit>)
    ensures Masks(a + b) == Masks(a) + Masks(b)
  {
    if a == [] {
      assert a + b == b;
    } else {
      assert (a + b)[1..] == a[1..] + b;
      MasksAppend(a[1..], b);
    }
  }

  /** The masks that the helper queues while one directory is listed. */
  function Queued(recurse: bool, mask: string, fs: seq<FileInfo>): seq<string> {
    if fs == [] then []
    else
      (if recurse && fs[0].directory && !IsDot(fs[0].name) && SubMask(mask, fs[0].name).Some?
       then [SubMask(mask, fs[0].name).value] else [])
      + Queued(recurse, mask, fs[1..])
  }

  lemma {:induction false} CallsAppend(o: Options, mask: string, a: seq<FileInfo>, b: seq<FileInfo>)
    ensures Calls(o, mask, a + b) == Calls(o, mask, a) + Calls(o, mask, b)
  {
    if a == [] {
      assert a + b == b;
    } else {
      assert (a + b)[1..] == a[1..] + b;
      CallsAppend(o, mask, a[1..], b);
    }
  }

  lemma {:induction false} QueuedAppend(recurse: bool, mask: string, a: seq<FileInfo>, b: seq<FileInfo>)
    ensures Queued(recurse, mask, a + b) == Queued(recurse, mask, a) + Queued(recurse, mask, b)
  {
    if a == [] {
      assert a + b == b;
    } else {
      assert (a + b)[1..] == a[1..] + b;
      QueuedAppend(recurse, mask, a[1..], b);
    }
  }

  /** Log and queue after the first n entries of a listing, and what one more entry adds. */
  function LogAfter(base: seq<Event>, o: Options, mask: string, fs: seq<FileInfo>, n: nat): seq<Event>
    requires n <= |fs|
  {
    base + Calls(o, mask, fs[..n])
  }

  function QueueAfter(base: seq<string>, recurse: bool, mask: string, fs: seq<FileInfo>, n: nat): seq<string>
    requires n <= |fs|
  {
    base + Queued(recurse, mask, fs[..n])
  }

  lemma AfterOneMore(log: seq<Event>, items: seq<string>, o: Options, recurse: bool, mask: string, fs: seq<FileInfo>, n: nat)
    requires n < |fs|
    ensures LogAfter(log, o, mask, fs, n + 1) == LogAfter(log, o, mask, fs, n) + Calls(o, mask, [fs[n]])
    ensures QueueAfter(items, recurse, mask, fs, n + 1)
         == QueueAfter(items, recurse, mask, fs, n) + Queued(recurse, mask, [fs[n]])
  {
    CallsAppend(o, mask, fs[..n], [fs[n]]);
    QueuedAppend(recurse, mask, fs[..n], [fs[n]]);
    assert fs[..n + 1] == fs[..n] + [fs[n]];
  }

  lemma AfterAll(log: seq<Event>, items: seq<string>, o: Options, recurse: bool, mask: string, fs: seq<FileInfo>)
    ensures LogAfter(log, o, mask, fs, 0) == log && QueueAfter(items, recurse, mask, fs, 0) == items
    ensures LogAfter(log, o, mask, fs, |fs|) == log + Calls(o, mask, fs)
    ensures QueueAfter(items, recurse, mask, fs, |fs|) == items + Queued(recurse, mask, fs)
  {
    assert fs[..|fs|] == fs;
  }

  lemma {:induction false} QueuedAreSubs(path: seq<string>, pattern: string, kids: seq<Node>)
    requires SEP !in pattern
    ensures Queued(true, MaskOf(path, pattern), Infos(kids)) == Masks(SubsFrom(path, kids))
  {
    if kids != [] {
      SubMaskNames(path, pattern, kids[0].info.name);
      QueuedAreSubs(path, pattern, kids[1..]);
      if Followed(kids[0]) {
        MasksAppend([Visit(path + [kids[0].info.name], kids[0], "*")], SubsFrom(path, kids[1..]));
      } else {
        assert SubsFrom(path, kids) == SubsFrom(path, kids[1..]);
      }
      assert Infos(kids)[1..] == Infos(kids[1..]);
    }
  }

  const MISSING: Node := Node(FileInfo("", true, false, 0, 0), false, [])

  function Start(share: Share, path: seq<string>, pattern: string): Visit {
    match Resolve(share.root, path)
    case None => Visit(path, MISSING, pattern)
    case Some(dir) => Visit(path, Selected(share, dir, pattern), pattern)
  }

  /** The visit is to the directory at its path, or to one that cannot be listed. */
  ghost predicate Sound(share: Share, v: Visit) {
    && WellFormed(share.root) && LegalPath(v.path) && LegalPattern(v.pattern) && WellFormed(v.node)
    && v.node == (match Resolve(share.root, v.path)
                  case None => MISSING
                  case Some(dir) => Selected(share, dir, v.pattern))
  }

  lemma SoundListing(share: Share, v: Visit)
    requires Sound(share, v)
    ensures Listing(share, MaskOf(v.path, v.pattern)) == Infos(Kids(v.node))
  {
    PathOfMask(v.path, v.pattern);
  }

  lemma {:induction false} ResolveStep(root: Node, path: seq<string>, kid: Node)
    requires Resolve(root, path).Some? && FindKid(Kids(Resolve(root, path).value), kid.info.name) == Some(kid)
    ensures Resolve(root, path + [kid.info.name]) == Some(kid)
    decreases |path|
  {
    var longer := path + [kid.info.name];
    if path == [] {
      assert longer[1..] == [];
    } else {
      assert longer[1..] == path[1..] + [kid.info.name];
      ResolveStep(FindKid(Kids(root), path[0]).value, path[1..], kid);
    }
  }

  lemma {:induction false} ResolveWellFormed(root: Node, path: seq<string>)
    requires WellFormed(root)
    ensures Resolve(root, path).Some? ==> WellFormed(Resolve(root, path).value)
    decreases |path|
  {
    if path != [] && FindKid(Kids(root), path[0]).Some? {
      FindKidFinds(Kids(root), path[0]);
      ResolveWellFormed(FindKid(Kids(root), path[0]).value, path[1..]);
    }
  }

  lemma KidResolves(share: Share, v: Visit, k: Node)
    requires Sound(share, v) && k in Kids(v.node) && Followed(k)
    ensures Resolve(share.root, v.path + [k.info.name]) == Some(k) && WellFormed(k) && LegalName(k.info.name)
  {
    var dir := Resolve(share.root, v.path).value;
    ResolveWellFormed(share.root, v.path);
    SelectIn(share, v.pattern, dir.children);
    FindKidIs(Kids(dir), k);
    ResolveStep(share.root, v.path, k);
  }

  lemma KidSound(share: Share, v: Visit, k: Node)
    requires Sound(share, v) && k in Kids(v.node) && Followed(k)
    ensures Sound(share, Visit(v.path + [k.info.name], k, "*"))
  {
    KidResolves(share, v, k);
    SelectIn(share, "*", k.children);
  }

  lemma SubsSound(share: Share, v: Visit)
    requires Sound(share, v)
    ensures forall s :: s in Subs(v) ==> Sound(share, s)
  {
    forall s | s in Subs(v)
      ensures Sound(share, s)
    {
      SubsFromIn(v.path, Kids(v.node), s);
      var k :| k in Kids(v.node) && Followed(k) && s == Visit(v.path + [k.info.name], k, "*");
      KidSound(share, v, k);
    }
  }

  lemma StartSound(share: Share, path: seq<string>, pattern: string)
    requires WellFormed(share.root) && LegalPath(path) && LegalPattern(pattern)
    ensures Sound(share, Start(share, path, pattern))
  {
    ResolveWellFormed(share.root, path);
    if Resolve(share.root, path).Some? {
      SelectedWellFormed(share, Resolve(share.root, path).value, pattern);
    }
  }

  lemma {:induction false} InfosIn(kids: seq<Node>, f: FileInfo)
    requires f in Infos(kids)
    ensures exists k :: k in kids && k.info == f
  {
    if f == kids[0].info {
      assert kids[0] in kids;
    } else {
      InfosIn(kids[1..], f);
    }
  }

  lemma SoundNames(share: Share, v: Visit)
    requires Sound(share, v)
    ensures NUL !in MaskOf(v.path, v.pattern)
    ensures forall f :: f in Infos(Kids(v.node)) ==> NUL !in f.name
  {
    JoinNulFree([""] + v.path + [v.pattern]);
    forall f | f in Infos(Kids(v.node))
      ensures NUL !in f.name
    {
      InfosIn(Kids(v.node), f);
    }
  }

  /** The header that the loop has already printed for the directory it will visit next. */
  function Announced(o: Options, done: seq<Visit>, pending: seq<Visit>): seq<Event> {
    if done == [] || pending == [] then [] else HeaderOf(o, pending[0])
  }

  /** The loop's state: what is done and what is queued make up the whole run, and the log fits what is done. */
  ghost predicate Progress(o: Options, base: seq<Event>, start: Visit, done: seq<Visit>, pending: seq<Visit>, log: seq<Event>) {
    && done + QueueOrder(pending) == QueueOrder([start])
    && log == base + Log(o, done) + Announced(o, done, pending)
  }

  function Next(pending: seq<Visit>): seq<Visit>
    requires pending != []
  {
    pending[1..] + Subs(pending[0])
  }

  /** What one turn of the loop adds to the log. */
  function TurnLog(o: Options, pending: seq<Visit>): seq<Event>
    requires pending != []
  {
    var next := Next(pending);
    Calls(o, MaskOf(pending[0].path, pending[0].pattern), Infos(Kids(pending[0].node))) + (if next == [] then [] else HeaderOf(o, next[0]))
  }

  lemma LogStep(o: Options, done: seq<Visit>, pending: seq<Visit>)
    requires pending != []
    ensures Log(o, done + [pending[0]])
         == Log(o, done) + Announced(o, done, pending) + Calls(o, MaskOf(pending[0].path, pending[0].pattern), Infos(Kids(pending[0].node)))
  {
    assert (done + [pending[0]])[..|done|] == done;
  }

  lemma Regroup<T>(a: seq<T>, b: seq<T>, c: seq<T>, d: seq<T>, e: seq<T>)
    ensures a + b + c + (d + e) == a + (b + c + d) + e
  {
  }

  lemma OrderStep(done: seq<Visit>, pending: seq<Visit>, whole: seq<Visit>)
    requires pending != [] && done + QueueOrder(pending) == whole
    ensures done + [pending[0]] + QueueOrder(Next(pending)) == whole
  {
    var rest := QueueOrder(Next(pending));
    assert QueueOrder(pending) == [pending[0]] + rest;
    assert done + [pending[0]] + rest == done + ([pending[0]] + rest);
  }

  lemma LogTurn(o: Options, base: seq<Event>, done: seq<Visit>, pending: seq<Visit>)
    requires pending != []
    ensures base + Log(o, done) + Announced(o, done, pending) + TurnLog(o, pending)
         == base + Log(o, done + [pending[0]]) + Announced(o, done + [pending[0]], Next(pending))
  {
    LogStep(o, done, pending);
    Regroup(base, Log(o, done), Announced(o, done, pending),
            Calls(o, MaskOf(pending[0].path, pending[0].pattern), Infos(Kids(pending[0].node))), Announced(o, done + [pending[0]], Next(pending)));
  }

  lemma ProgressStep(o: Options, base: seq<Event>, start: Visit, done: seq<Visit>, pending: seq<Visit>, log: seq<Event>)
    requires pending != [] && Progress(o, base, start, done, pending, log)
    ensures Progress(o, base, start, done + [pending[0]], Next(pending), log + TurnLog(o, pending))
  {
    OrderStep(done, pending, QueueOrder([start]));
    LogTurn(o, base, done, pending);
  }

  lemma ProgressStarts(o: Options, base: seq<Event>, start: Visit)
    ensures Progress(o, base, start, [], [start], base)
  {
  }

  lemma ProgressEnds(o: Options, base: seq<Event>, start: Visit, done: seq<Visit>, log: seq<Event>)
    requires Progress(o, base, start, done, [], log)
    ensures log == base + Log(o, LevelOrder([start]))
  {
    QueueOrderIsLevelOrder([start]);
    assert done == done + QueueOrder([]);
    assert log == base + Log(o, done);
  }

  lemma NextMasks(v: Visit, rest: seq<Visit>)
    requires SEP !in v.pattern
    ensures (Masks([v] + rest) + Queued(true, MaskOf(v.path, v.pattern), Infos(Kids(v.node))))[1..] == Masks(Next([v] + rest))
  {
    var pending := [v] + rest;
    assert pending[1..] == rest;
    QueuedAreSubs(v.path, v.pattern, Kids(v.node));
    MasksAppend(rest, Subs(v));
    assert Masks(pending) == [MaskOf(v.path, v.pattern)] + Masks(rest);
  }

  /** Everything a turn needs to know of the directory at the head of the queue. */
  lemma HeadFacts(share: Share, pending: seq<Visit>)
    requires pending != [] && Sound(share, pending[0])
    ensures var mask := MaskOf(pending[0].path, pending[0].pattern);
            && NUL !in mask
            && Listing(share, mask) == Infos(Kids(pending[0].node))
            && (forall f :: f in Listing(share, mask) ==> NUL !in f.name)
            && (Masks(pending) + Queued(true, mask, Listing(share, mask)))[1..] == Masks(Next(pending))
  {
    var v := pending[0];
    assert pending == [v] + pending[1..];
    SoundListing(share, v);
    SoundNames(share, v);
    NextMasks(v, pending[1..]);
  }

  ghost predicate AllSound(share: Share, vs: seq<Visit>) {
    forall v :: v in vs ==> Sound(share, v)
  }

  lemma NextFacts(share: Share, pending: seq<Visit>)
    requires pending != [] && AllSound(share, pending)
    ensures AllSound(share, Next(pending))
    ensures Pending(Next(pending)) < Pending(pending)
  {
    SubsSound(share, pending[0]);
    QueueShrinks(pending);
  }

  lemma MasksFacts(vs: seq<Visit>)
    ensures Masks(vs) == [] <==> vs == []
    ensures vs != [] ==> Masks(vs)[0] == MaskOf(vs[0].path, vs[0].pattern) && Masks(vs)[0] != ""
  {
    if vs != [] {
      JoinAppend([""] + vs[0].path, [vs[0].pattern]);
    }
  }

  lemma {:induction false} DirPartIsPrefix(mask: string)
    ensures DirPart(mask).Some? ==> DirPart(mask).value <= mask
  {
    if mask != "" {
      DirPartIsPrefix(mask[..|mask| - 1]);
    }
  }

  /** What the loop keeps, apart from the queue. */
  ghost predicate OnCourse(share: Share, o: Options, base: seq<Event>, start: Visit, done: seq<Visit>, pending: seq<Visit>, log: seq<Event>) {
    AllSound(share, pending) && Progress(o, base, start, done, pending, log)
  }

  lemma StaysOnCourse(share: Share, o: Options, base: seq<Event>, start: Visit, done: seq<Visit>, pending: seq<Visit>, log: seq<Event>)
    requires pending != [] && OnCourse(share, o, base, start, done, pending, log)
    ensures OnCourse(share, o, base, start, done + [pending[0]], Next(pending), log + TurnLog(o, pending))
    ensures Sound(share, pending[0]) && Pending(Next(pending)) < Pending(pending)
    ensures Masks(Next(pending)) == [] <==> Next(pending) == []
  {
    ProgressStep(o, base, start, done, pending, log);
    NextFacts(share, pending);
    MasksFacts(Next(pending));
  }

  lemma OneEntry(o: Options, recurse: bool, mask: string, f: FileInfo)
    ensures Calls(o, mask, [f]) == if Admitted(o, f) then [Listed(mask, f)] else []
    ensures Queued(recurse, mask, [f]) ==
            if recurse && f.directory && !IsDot(f.name) && SubMask(mask, f.name).Some? then [SubMask(mask, f.name).value] else []
  {
    assert [f][1..] == [];
  }

  class Lister {
    const share: Share     // the remote tree, served by smbcli_list
    const options: Options
    const queue: ListQueue.Queue
    var inDoList: bool
    var recurse: bool
    var log: seq<Event>

    ghost predicate Valid()
      reads this, queue, queue.buf
    {
      queue.Valid() && (queue.items != [] ==> queue.front != "")
    }

    constructor (share: Share, options: Options)
      ensures Valid() && fresh(queue) && queue.buf == null && log == [] && !inDoList
      ensures this.share == share && this.options == options
    {
      this.share, this.options := share, options;
      queue := new ListQueue.Queue();
      inDoList, recurse, log := false, false, [];
    }

    /** Queues the mask of a subdirectory. */
    method QueueSub(f: FileInfo, mask: string)
      requires Valid() && NUL !in mask && NUL !in f.name && queue.buf != null
      modifies queue, queue.buf
      ensures Valid() && queue.buf != null && (queue.buf == old(queue.buf) || fresh(queue.buf))
      ensures queue.items == old(queue.items) + (if SubMask(mask, f.name).Some? then [SubMask(mask, f.name).value] else [])
    {
      var dir := DirPart(mask);
      if dir.None? {
        assert queue.items + [] == queue.items;
        return;
      }
      DirPartIsPrefix(mask);
      queue.Add(dir.value + f.name + "\\*");
    }

    /** do_list_helper: called for each entry of a listing. */
    method Helper(f: FileInfo, mask: string)
      requires Valid() && NUL !in mask && NUL !in f.name
      requires recurse ==> queue.buf != null
      modifies this`log, queue, queue.buf
      ensures Valid() && (queue.buf == old(queue.buf) || fresh(queue.buf))
      ensures recurse ==> queue.buf != null
      ensures log == old(log) + Calls(options, mask, [f])
      ensures queue.items == old(queue.items) + Queued(recurse, mask, [f])
    {
      OneEntry(options, recurse, mask, f);
      if f.directory {
        if options.dirs && Selects(options.filter, f) {
          log := log + [Listed(mask, f)];
        }
        if recurse && !IsDot(f.name) {
          QueueSub(f, mask);
        }
        return;
      }
      if Selects(options.filter, f) {
        log := log + [Listed(mask, f)];
      }
    }

    /** smbcli_list with the helper as its callback. */
    method ListInto(mask: string)
      requires Valid() && NUL !in mask && (recurse ==> queue.buf != null)
      requires forall f :: f in Listing(share, mask) ==> NUL !in f.name
      modifies this`log, queue, queue.buf
      ensures Valid() && (queue.buf == old(queue.buf) || fresh(queue.buf))
      ensures recurse ==> queue.buf != null
      ensures log == old(log) + Calls(options, mask, Listing(share, mask))
      ensures queue.items == old(queue.items) + Queued(recurse, mask, Listing(share, mask))
    {
      var fs := Listing(share, mask);
      AfterAll(log, queue.items, options, recurse, mask, fs);
      for i := 0 to |fs|
        invariant Valid() && (queue.buf == old(queue.buf) || fresh(queue.buf))
        invariant recurse ==> queue.buf != null
        invariant log == LogAfter(old(log), options, mask, fs, i)
        invariant queue.items == QueueAfter(old(queue.items), recurse, mask, fs, i)
      {
        AfterOneMore(old(log), old(queue.items), options, recurse, mask, fs, i);
        Helper(fs[i], mask);
      }
    }

    /** Lists the directory at the head, which stays where it is. */
    method ListHead(ghost pending: seq<Visit>)
      requires Valid() && recurse && queue.buf != null
      requires pending != [] && queue.items == Masks(pending) && Sound(share, pending[0])
      modifies this`log, queue, queue.buf
      ensures Valid() && queue.buf != null && (queue.buf == old(queue.buf) || fresh(queue.buf))
      ensures var mask := MaskOf(pending[0].path, pending[0].pattern);
              && queue.items == old(queue.items) + Queued(true, mask, Listing(share, mask))
              && log == old(log) + Calls(options, mask, Listing(share, mask))
    {
      HeadFacts(share, pending);
      MasksFacts(pending);
      var head := queue.Head();
      ListInto(head);
    }

    /** One turn of the loop: list the directory at the head and drop it. */
    method VisitHead(ghost pending: seq<Visit>)
      requires Valid() && recurse && queue.buf != null
      requires pending != [] && queue.items == Masks(pending) && Sound(share, pending[0])
      modifies this`log, queue, queue.buf
      ensures Valid() && queue.buf != null && (queue.buf == old(queue.buf) || fresh(queue.buf))
      ensures queue.items == Masks(Next(pending))
      ensures log == old(log) + Calls(options, MaskOf(pending[0].path, pending[0].pattern), Infos(Kids(pending[0].node)))
    {
      HeadFacts(share, pending);
      MasksFacts(Next(pending));
      ListHead(pending);
      queue.RemoveHead();
    }

    /** Prints the name of the directory that comes next, when there is one. */
    method Announce(ghost next: seq<Visit>)
      requires Valid() && queue.buf != null && queue.items == Masks(next)
      modifies this`log, queue.buf
      ensures Valid()
      ensures log == old(log) + (if next == [] then [] else HeaderOf(options, next[0]))
    {
      MasksFacts(next);
      var empty := queue.Empty();
      if !empty && options.display {
        var dir := queue.HeadLabel();
        log := log + [Header(dir)];
      }
    }

    method Turn(ghost pending: seq<Visit>)
      requires Valid() && recurse && queue.buf != null
      requires pending != [] && queue.items == Masks(pending) && Sound(share, pending[0])
      modifies this`log, queue, queue.buf
      ensures Valid() && queue.buf != null && (queue.buf == old(queue.buf) || fresh(queue.buf))
      ensures queue.items == Masks(Next(pending))
      ensures log == old(log) + TurnLog(options, pending)
    {
      VisitHead(pending);
      Announce(Next(pending));
    }

    /** A fresh queue holding the first mask. */
    method Prime(path: seq<string>, pattern: string)
      requires WellFormed(share.root) && LegalPath(path) && LegalPattern(pattern)
      modifies queue
      ensures Valid() && queue.buf != null && fresh(queue.buf)
      ensures queue.items == Masks([Start(share, path, pattern)])
    {
      StartSound(share, path, pattern);
      HeadFacts(share, [Start(share, path, pattern)]);
      MasksFacts([Start(share, path, pattern)]);
      queue.Init();
      queue.Add(MaskOf(path, pattern));
    }

    /** The loop that runs until the queue reports itself empty. */
    method Drain(ghost start: Visit)
      requires Valid() && recurse && queue.buf != null
      requires queue.items == Masks([start]) && Sound(share, start)
      modifies this`log, queue, queue.buf
      ensures Valid() && log == old(log) + Log(options, LevelOrder([start]))
    {
      ghost var done, pending := [], [start];
      MasksFacts(pending);
      ProgressStarts(options, log, start);
      var empty := queue.Empty();
      while !empty
        invariant Valid() && recurse && queue.buf != null && (queue.buf == old(queue.buf) || fresh(queue.buf))
        invariant queue.items == Masks(pending) && (empty <==> pending == [])
        invariant OnCourse(share, options, old(log), start, done, pending, log)
        decreases Pending(pending)
      {
        StaysOnCourse(share, options, old(log), start, done, pending, log);
        Turn(pending);
        done, pending := done + [pending[0]], Next(pending);
        empty := queue.Empty();
      }
      ProgressEnds(options, old(log), start, done, log);
    }

    method ListAll(path: seq<string>, pattern: string)
      requires Valid() && recurse && WellFormed(share.root) && LegalPath(path) && LegalPattern(pattern)
      modifies this`log, queue, queue.buf
      ensures Valid() && log == old(log) + Log(options, LevelOrder([Start(share, path, pattern)]))
    {
      Prime(path, pattern);
      StartSound(share, path, pattern);
      Drain(Start(share, path, pattern));
    }

    method ListOne(path: seq<string>, pattern: string)
      requires Valid() && !recurse && WellFormed(share.root) && LegalPath(path) && LegalPattern(pattern)
      modifies this`log, queue, queue.buf
      ensures Valid() && log == old(log) + Calls(options, MaskOf(path, pattern), Listing(share, MaskOf(path, pattern)))
    {
      StartSound(share, path, pattern);
      HeadFacts(share, [Start(share, path, pattern)]);
      ListInto(MaskOf(path, pattern));
    }

    /** The listing of one directory, or of everything reachable below it, breadth first. */
    method DoList(path: seq<string>, pattern: string, rec: bool) returns (aborted: bool)
      requires Valid() && WellFormed(share.root) && LegalPath(path) && LegalPattern(pattern)
      modifies this, queue, queue.buf
      ensures aborted == (old(inDoList) && rec)
      ensures aborted ==> log == old(log)
      ensures !aborted ==> Valid() && !inDoList && queue.items == []
      ensures !aborted && rec ==> log == old(log) + Log(options, LevelOrder([Start(share, path, pattern)]))
      ensures !aborted && !rec ==> log == old(log) + Calls(options, MaskOf(path, pattern), Listing(share, MaskOf(path, pattern)))
    {
      if inDoList && rec {
        return true;
      }
      aborted := false;
      inDoList := true;
      recurse := rec;
      if rec {
        ListAll(path, pattern);
      } else {
        ListOne(path, pattern);
      }
      inDoList := false;
      queue.Reset();
    }
  }
}
