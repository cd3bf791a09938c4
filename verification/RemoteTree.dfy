/** A remote directory tree as its server lists it, and the order in which a recursive listing visits it. */
module RemoteTree {
  import opened Wrappers
  import opened Paths
  import opened CStrings

  datatype FileInfo = FileInfo(name: string, directory: bool, archive: bool, mtime: int, size: nat)

  /** A listing may contain the entries "." and ".."; a directory may refuse to be listed. */
  datatype Node = Node(info: FileInfo, listable: bool, children: seq<Node>)

  predicate LegalName(name: string) {
    name != "" && SEP !in name && NUL !in name
  }

  predicate WellFormed(n: Node) {
    && (forall i :: 0 <= i < |n.children| ==> LegalName(n.children[i].info.name) && WellFormed(n.children[i]))
    && (forall i, j :: 0 <= i < j < |n.children| ==> n.children[i].info.name != n.children[j].info.name)
  }

  function Kids(n: Node): seq<Node> {
    if n.listable then n.children else []
  }

  /** The entries a recursive listing goes into. */
  predicate Followed(n: Node) {
    n.info.directory && !IsDot(n.info.name)
  }

  function FindKid(kids: seq<Node>, name: string): Option<Node> {
    if kids == [] then None
    else if Followed(kids[0]) && kids[0].info.name == name then Some(kids[0])
    else FindKid(kids[1..], name)
  }

  /** The directory that a path leads to, going only through directories that can be listed. */
  function Resolve(root: Node, path: seq<string>): Option<Node>
    decreases |path|
  {
    if path == [] then Some(root)
    else match FindKid(Kids(root), path[0])
      case None => None
      case Some(kid) => Resolve(kid, path[1..])
  }

  /** A directory and the pattern with which it is listed; its node holds the entries that match. */
  datatype Visit = Visit(path: seq<string>, node: Node, pattern: string)

  function SubsFrom(path: seq<string>, kids: seq<Node>): seq<Visit> {
    if kids == [] then []
    else (if Followed(kids[0]) then [Visit(path + [kids[0].info.name], kids[0], "*")] else []) + SubsFrom(path, kids[1..])
  }

  function Subs(v: Visit): seq<Visit> {
    SubsFrom(v.path, Kids(v.node))
  }

  function SubsOfAll(vs: seq<Visit>): seq<Visit> {
    if vs == [] then [] else Subs(vs[0]) + SubsOfAll(vs[1..])
  }

  // ----- how much is left to visit -----

  function WeightOfAll(ns: seq<Node>): nat
    decreases ns, 0
  {
    if ns == [] then 0 else Weight(ns[0]) + WeightOfAll(ns[1..])
  }

  function Weight(n: Node): nat
    decreases n, 1
  {
    1 + WeightOfAll(n.children)
  }

  function Pending(vs: seq<Visit>): nat {
    if vs == [] then 0 else Weight(vs[0].node) + Pending(vs[1..])
  }

  lemma {:induction false} PendingAppend(a: seq<Visit>, b: seq<Visit>)
    ensures Pending(a + b) == Pending(a) + Pending(b)
  {
    if a == [] {
      assert a + b == b;
    } else {
      assert (a + b)[1..] == a[1..] + b;
      PendingAppend(a[1..], b);
    }
  }

  lemma {:induction false} SubsFromWeigh(path: seq<string>, kids: seq<Node>)
    ensures Pending(SubsFrom(path, kids)) <= WeightOfAll(kids)
  {
    if kids != [] {
      SubsFromWeigh(path, kids[1..]);
      if Followed(kids[0]) {
        PendingAppend([Visit(path + [kids[0].info.name], kids[0], "*")], SubsFrom(path, kids[1..]));
      } else {
        assert SubsFrom(path, kids) == SubsFrom(path, kids[1..]);
      }
    }
  }

  lemma QueueShrinks(q: seq<Visit>)
    requires q != []
    ensures Pending(q[1..] + Subs(q[0])) < Pending(q)
  {
    SubsFromWeigh(q[0].path, Kids(q[0].node));
    PendingAppend(q[1..], Subs(q[0]));
  }

  lemma {:induction false} LevelShrinks(vs: seq<Visit>)
    ensures Pending(SubsOfAll(vs)) <= Pending(vs)
    ensures vs != [] ==> Pending(SubsOfAll(vs)) < Pending(vs)
  {
    if vs != [] {
      SubsFromWeigh(vs[0].path, Kids(vs[0].node));
      PendingAppend(Subs(vs[0]), SubsOfAll(vs[1..]));
      LevelShrinks(vs[1..]);
    }
  }

  // ----- the order of visits -----

  /** The order produced by a FIFO to which each visited directory appends its subdirectories. */
  function QueueOrder(q: seq<Visit>): seq<Visit>
    decreases Pending(q)
  {
    if q == [] then []
    else
      QueueShrinks(q);
      [q[0]] + QueueOrder(q[1..] + Subs(q[0]))
  }

  /** Level by level: a whole level, then all subdirectories of it. */
  function LevelOrder(level: seq<Visit>): seq<Visit>
    decreases Pending(level)
  {
    if level == [] then []
    else
      LevelShrinks(level);
      level + LevelOrder(SubsOfAll(level))
  }

  lemma QueueMoves(first: Visit, rest: seq<Visit>, next: seq<Visit>)
    ensures QueueOrder([first] + rest + next) == [first] + QueueOrder(rest + (next + Subs(first)))
  {
    var q := [first] + rest + next;
    assert q[0] == first;
    assert q[1..] + Subs(first) == rest + (next + Subs(first));
  }

  lemma Appended(first: Visit, rest: seq<Visit>, next: seq<Visit>)
    ensures next + Subs(first) + SubsOfAll(rest) == next + SubsOfAll([first] + rest)
  {
    assert ([first] + rest)[1..] == rest;
    assert SubsOfAll([first] + rest) == Subs(first) + SubsOfAll(rest);
  }

  lemma Consed(first: Visit, rest: seq<Visit>, order: seq<Visit>)
    ensures [first] + (rest + order) == [first] + rest + order
  {
  }

  lemma {:induction false} QueueFinishesLevel(level: seq<Visit>, next: seq<Visit>)
    ensures QueueOrder(level + next) == level + QueueOrder(next + SubsOfAll(level))
    decreases |level|
  {
    if level == [] {
      assert level + next == next && next + SubsOfAll(level) == next;
    } else {
      var first, rest := level[0], level[1..];
      var more := next + Subs(first);
      assert level == [first] + rest;
      QueueMoves(first, rest, next);
      QueueFinishesLevel(rest, more);
      Appended(first, rest, next);
      Consed(first, rest, QueueOrder(next + SubsOfAll(level)));
    }
  }

  /** The FIFO visits the tree in breadth-first order. */
  lemma {:induction false} QueueOrderIsLevelOrder(level: seq<Visit>)
    ensures QueueOrder(level) == LevelOrder(level)
    decreases Pending(level)
  {
    if level != [] {
      QueueFinishesLevel(level, []);
      assert level + [] == level && [] + SubsOfAll(level) == SubsOfAll(level);
      LevelShrinks(level);
      QueueOrderIsLevelOrder(SubsOfAll(level));
    }
  }

  predicate Depth(vs: seq<Visit>, d: nat) {
    forall i :: 0 <= i < |vs| ==> |vs[i].path| == d
  }

  lemma {:induction false} SubsOfAllIn(vs: seq<Visit>, x: Visit)
    ensures x in SubsOfAll(vs) <==> exists v :: v in vs && x in Subs(v)
  {
    if vs != [] {
      SubsOfAllIn(vs[1..], x);
      assert vs == [vs[0]] + vs[1..];
    }
  }

  lemma {:induction false} SubsFromIn(path: seq<string>, kids: seq<Node>, x: Visit)
    ensures x in SubsFrom(path, kids) <==>
            exists k :: k in kids && Followed(k) && x == Visit(path + [k.info.name], k, "*")
  {
    if kids != [] {
      SubsFromIn(path, kids[1..], x);
      assert kids == [kids[0]] + kids[1..];
    }
  }

  lemma SubsDepth(vs: seq<Visit>, d: nat)
    requires Depth(vs, d)
    ensures Depth(SubsOfAll(vs), d + 1)
  {
    forall i | 0 <= i < |SubsOfAll(vs)|
      ensures |SubsOfAll(vs)[i].path| == d + 1
    {
      var x := SubsOfAll(vs)[i];
      SubsOfAllIn(vs, x);
      var v :| v in vs && x in Subs(v);
      SubsFromIn(v.path, Kids(v.node), x);
    }
  }

  /** Breadth first: no directory is visited after a deeper one. */
  lemma {:induction false} DepthNeverDrops(level: seq<Visit>, d: nat)
    requires Depth(level, d)
    ensures forall i :: 0 <= i < |LevelOrder(level)| ==> |LevelOrder(level)[i].path| >= d
    ensures forall i, j :: 0 <= i < j < |LevelOrder(level)| ==>
              |LevelOrder(level)[i].path| <= |LevelOrder(level)[j].path|
    decreases Pending(level)
  {
    if level != [] {
      LevelShrinks(level);
      SubsDepth(level, d);
      DepthNeverDrops(SubsOfAll(level), d + 1);
    }
  }

  predicate Distinct(vs: seq<Visit>) {
    forall i, j :: 0 <= i < j < |vs| ==> vs[i].path != vs[j].path
  }

  lemma {:induction false} SubsFromDistinct(path: seq<string>, kids: seq<Node>)
    requires forall i, j :: 0 <= i < j < |kids| ==> kids[i].info.name != kids[j].info.name
    ensures Distinct(SubsFrom(path, kids))
  {
    if kids != [] {
      SubsFromDistinct(path, kids[1..]);
      var rest := SubsFrom(path, kids[1..]);
      forall j | 0 <= j < |rest|
        ensures rest[j].path != path + [kids[0].info.name]
      {
        SubsFromIn(path, kids[1..], rest[j]);
        var k :| k in kids[1..] && rest[j] == Visit(path + [k.info.name], k, "*");
        var i :| 1 <= i < |kids| && kids[i] == k;
        assert rest[j].path[|path|] == k.info.name;
      }
    }
  }

  predicate AllWellFormed(vs: seq<Visit>) {
    forall i :: 0 <= i < |vs| ==> WellFormed(vs[i].node)
  }

  lemma SubsWellFormed(vs: seq<Visit>)
    requires AllWellFormed(vs)
    ensures AllWellFormed(SubsOfAll(vs))
  {
    forall i | 0 <= i < |SubsOfAll(vs)|
      ensures WellFormed(SubsOfAll(vs)[i].node)
    {
      var x := SubsOfAll(vs)[i];
      SubsOfAllIn(vs, x);
      var v :| v in vs && x in Subs(v);
      SubsFromIn(v.path, Kids(v.node), x);
    }
  }

  lemma {:induction false} SubsDistinct(vs: seq<Visit>, d: nat)
    requires AllWellFormed(vs) && Distinct(vs) && Depth(vs, d)
    ensures Distinct(SubsOfAll(vs))
  {
    if vs != [] {
      SubsFromDistinct(vs[0].path, Kids(vs[0].node));
      SubsDistinct(vs[1..], d);
      var first, rest := Subs(vs[0]), SubsOfAll(vs[1..]);
      forall i, j | 0 <= i < |first| && 0 <= j < |rest|
        ensures first[i].path != rest[j].path
      {
        SubsFromIn(vs[0].path, Kids(vs[0].node), first[i]);
        SubsOfAllIn(vs[1..], rest[j]);
        var v :| v in vs[1..] && rest[j] in Subs(v);
        SubsFromIn(v.path, Kids(v.node), rest[j]);
        assert first[i].path[..d] == vs[0].path && rest[j].path[..d] == v.path;
      }
    }
  }

  /** No directory is visited twice. */
  lemma {:induction false} VisitedOnce(level: seq<Visit>, d: nat)
    requires AllWellFormed(level) && Distinct(level) && Depth(level, d)
    ensures Distinct(LevelOrder(level))
    decreases Pending(level)
  {
    if level != [] {
      LevelShrinks(level);
      SubsDepth(level, d);
      SubsWellFormed(level);
      SubsDistinct(level, d);
      VisitedOnce(SubsOfAll(level), d + 1);
      DepthNeverDrops(SubsOfAll(level), d + 1);
    }
  }

  ghost predicate LeadsTo(v: Visit, x: Visit) {
    && v.path <= x.path
    && Resolve(v.node, x.path[|v.path|..]) == Some(x.node)
    && x.pattern == if |x.path| == |v.path| then v.pattern else "*"
  }

  lemma {:induction false} FindKidIs(kids: seq<Node>, k: Node)
    requires forall i, j :: 0 <= i < j < |kids| ==> kids[i].info.name != kids[j].info.name
    ensures k in kids && Followed(k) <==> FindKid(kids, k.info.name) == Some(k)
  {
    if kids != [] {
      FindKidIs(kids[1..], k);
      assert kids == [kids[0]] + kids[1..];
    }
  }

  lemma {:induction false} FindKidFinds(kids: seq<Node>, name: string)
    requires FindKid(kids, name).Some?
    ensures var k := FindKid(kids, name).value; k in kids && Followed(k) && k.info.name == name
  {
    if !(Followed(kids[0]) && kids[0].info.name == name) {
      FindKidFinds(kids[1..], name);
    }
  }

  lemma OneNameDeeper(p: seq<string>, q: seq<string>)
    requires p <= q && |p| < |q|
    ensures p + [q[|p|]] <= q && q[|p| + 1..] == q[|p|..][1..] && q[|p|..][0] == q[|p|]
  {
  }

  lemma {:induction false} LeadsThrough(v: Visit, x: Visit)
    requires LeadsTo(v, x) && |x.path| > |v.path|
    ensures exists s :: s in Subs(v) && LeadsTo(s, x)
  {
    var name := x.path[|v.path|];
    OneNameDeeper(v.path, x.path);
    var k := FindKid(Kids(v.node), name).value;
    FindKidFinds(Kids(v.node), name);
    var s := Visit(v.path + [name], k, "*");
    SubsFromIn(v.path, Kids(v.node), s);
    assert LeadsTo(s, x);
  }

  lemma LeadsFrom(v: Visit, s: Visit, x: Visit)
    requires WellFormed(v.node) && s in Subs(v) && LeadsTo(s, x)
    ensures LeadsTo(v, x)
  {
    SubsFromIn(v.path, Kids(v.node), s);
    var k :| k in Kids(v.node) && Followed(k) && s == Visit(v.path + [k.info.name], k, "*");
    FindKidIs(Kids(v.node), k);
    var rel := x.path[|v.path|..];
    assert rel[0] == s.path[|v.path|] == k.info.name;
    assert rel[1..] == x.path[|s.path|..];
  }

  /** A place below v is v itself or a place below one of its subdirectories. */
  lemma LeadsToStep(v: Visit, x: Visit)
    requires WellFormed(v.node)
    ensures LeadsTo(v, x) <==> x == v || exists s :: s in Subs(v) && LeadsTo(s, x)
  {
    if LeadsTo(v, x) && |x.path| == |v.path| {
      assert x.path == v.path;
    } else if LeadsTo(v, x) {
      LeadsThrough(v, x);
    }
    forall s | s in Subs(v) && LeadsTo(s, x)
      ensures LeadsTo(v, x)
    {
      LeadsFrom(v, s, x);
    }
    if x == v {
      assert x.path[|v.path|..] == [];
    }
  }

  /** A directory is visited exactly when listable directories lead to it. */
  lemma {:induction false} VisitedIffReachable(level: seq<Visit>, x: Visit)
    requires AllWellFormed(level)
    ensures x in LevelOrder(level) <==> exists v :: v in level && LeadsTo(v, x)
    decreases Pending(level)
  {
    if level != [] {
      LevelShrinks(level);
      SubsWellFormed(level);
      var next := SubsOfAll(level);
      VisitedIffReachable(next, x);
      forall v | v in level
        ensures LeadsTo(v, x) <==> x == v || exists s :: s in Subs(v) && LeadsTo(s, x)
      {
        LeadsToStep(v, x);
      }
      forall s
        ensures s in next <==> exists v :: v in level && s in Subs(v)
      {
        SubsOfAllIn(level, s);
      }
      if x in next || exists s :: s in next && LeadsTo(s, x) {
        if exists s :: s in next && LeadsTo(s, x) {
          var s :| s in next && LeadsTo(s, x);
          var v :| v in level && s in Subs(v);
          assert LeadsTo(v, x);
        }
      }
    }
  }
}
