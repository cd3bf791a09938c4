/** The paged pull of one directory partition: the linked list of objects, its tail pointer, and the watermark. */
module ReplicationPull {

  type Guid = nat
  type Obj = nat

  datatype Mark = Mark(tmpHighestUsn: nat, highestUsn: nat)

  /** drsuapi_DsReplicaObjectListItemEx */
  class Item {
    const obj: Obj
    var next: Item?

    constructor (obj: Obj)
      ensures this.obj == obj && next == null
    {
      this.obj := obj;
      next := null;
    }
  }

  /** From lo up to hi, every item points to its successor. */
  ghost predicate Linked(spine: seq<Item>, lo: nat, hi: int)
    requires hi < |spine|
    reads spine
  {
    forall i :: lo <= i < hi ==> spine[i].next == spine[i + 1]
  }

  /** The items form a chain, in this order, ending in null. */
  ghost predicate Chain(spine: seq<Item>)
    reads spine
  {
    Linked(spine, 0, |spine| - 1) && (spine != [] ==> spine[|spine| - 1].next == null)
  }

  ghost predicate NoRepeats(spine: seq<Item>) {
    forall i, j :: 0 <= i < j < |spine| ==> spine[i] != spine[j]
  }

  lemma AppendNoRepeats(a: seq<Item>, b: seq<Item>)
    requires NoRepeats(a) && NoRepeats(b) && forall x :: x in b ==> x !in a
    ensures NoRepeats(a + b)
  {
    forall i, j | 0 <= i < j < |a + b|
      ensures (a + b)[i] != (a + b)[j]
    {
      if i < |a| <= j {
        assert (a + b)[j] == b[j - |a|] && b[j - |a|] in b;
      }
    }
  }

  ghost function Objects(spine: seq<Item>): seq<Obj> {
    seq(|spine|, i requires 0 <= i < |spine| => spine[i].obj)
  }

  /** The container of a reply, at level 1 or 6; first is never null here. */
  datatype Ctr = Ctr(sourceDsaGuid: Guid, invocationId: Guid, mark: Mark, first: Item)

  /** A reply carries its container directly or compressed; only MSZIP is understood at level 7. */
  datatype Reply =
    | Level1(ctr: Ctr)
    | Level2(ctr: Ctr)
    | Level6(ctr: Ctr)
    | Level7(innerLevel: nat, mszip: bool, ctr: Ctr)
    | OtherLevel(level: nat)
    | Failed(error: nat)

  predicate Understood(r: Reply) {
    r.Level1? || r.Level2? || r.Level6? || (r.Level7? && r.innerLevel == 6 && r.mszip)
  }

  /** A reply that did not fail, apart from its container. */
  datatype ReplyForm = AtLevel1 | AtLevel2 | AtLevel6 | AtLevel7(innerLevel: nat, mszip: bool) | AtOther(level: nat)

  predicate Understands(f: ReplyForm) {
    f.AtLevel1? || f.AtLevel2? || f.AtLevel6? || (f.AtLevel7? && f.innerLevel == 6 && f.mszip)
  }

  function InForm(f: ReplyForm, ctr: Ctr): (r: Reply)
    ensures !r.Failed? && (Understood(r) <==> Understands(f)) && (Understood(r) ==> r.ctr == ctr)
  {
    match f
    case AtLevel1 => Level1(ctr)
    case AtLevel2 => Level2(ctr)
    case AtLevel6 => Level6(ctr)
    case AtLevel7(inner, mszip) => Level7(inner, mszip, ctr)
    case AtOther(level) => OtherLevel(level)
  }

  datatype WError = Ok | BadNetResp | Error(code: nat)

  datatype Request = Request(level: nat, destination: Guid, invocationId: Guid, mark: Mark)

  lemma ChainsSideBySide(a: seq<Item>, b: seq<Item>)
    requires Chain(a) && Chain(b) && b != []
    ensures Linked(a + b, 0, |a| - 1) && Linked(a + b, |a|, |a + b| - 1) && (a + b)[|a + b| - 1].next == null
  {
    forall i | |a| <= i < |a + b| - 1
      ensures (a + b)[i].next == (a + b)[i + 1]
    {
      assert b[i - |a|].next == b[i - |a| + 1];
    }
  }

  /** becomeDC_partition */
  class Partition {
    const destination: Guid
    var sourceDsaGuid: Guid
    var invocationId: Guid
    var mark: Mark
    var first: Item?
    var last: Item?
    ghost var spine: seq<Item>

    ghost predicate Valid()
      reads this, spine
    {
      && Chain(spine) && NoRepeats(spine)
      && (if spine == [] then first == null && last == null else first == spine[0] && last == spine[|spine| - 1])
    }

    constructor (destination: Guid)
      ensures Valid() && spine == [] && this.destination == destination
      ensures mark == Mark(0, 0) && invocationId == 0 && sourceDsaGuid == 0
    {
      this.destination := destination;
      sourceDsaGuid, invocationId, mark, first, last := 0, 0, Mark(0, 0), null, null;
      spine := [];
    }

    /** becomeDC_drsuapi_pull_partition_send */
    method NextRequest(v8: bool) returns (r: Request)
      ensures r == Request(if v8 then 8 else 5, destination, invocationId, mark)
    {
      r := Request(if v8 then 8 else 5, destination, invocationId, mark);
    }

    /** The loop that walks from the first item of a page, which starts at position n, to its tail. */
    static method Tail(head: Item, ghost all: seq<Item>, ghost n: nat) returns (cur: Item)
      requires n < |all| && all[n] == head && Linked(all, n, |all| - 1) && all[|all| - 1].next == null
      ensures cur == all[|all| - 1]
    {
      cur := head;
      ghost var i := n;
      while cur.next != null
        invariant n <= i < |all| && cur == all[i]
        invariant i < |all| - 1 ==> cur.next == all[i + 1]
        decreases |all| - i
      {
        cur := cur.next;
        i := i + 1;
      }
    }

    /** last->next = head, which joins the two chains. */
    method Link(ghost all: seq<Item>, ghost n: nat, head: Item)
      requires 0 < n < |all| && NoRepeats(all) && Linked(all, 0, n - 1) && Linked(all, n, |all| - 1)
      requires last == all[n - 1] && head == all[n]
      modifies last
      ensures Linked(all, 0, |all| - 1) && Linked(all, n, |all| - 1) && all[|all| - 1].next == old(all[|all| - 1].next)
    {
      last.next := head;
    }

    /** Links a page behind the last object and moves the tail pointer to the end of it. */
    method AppendPage(head: Item, ghost page: seq<Item>)
      requires Valid() && page != [] && page[0] == head && Chain(page) && NoRepeats(spine + page)
      modifies this`first, this`last, this`spine, if last == null then {} else {last}
      ensures Valid() && spine == old(spine) + page && last == page[|page| - 1]
    {
      ghost var n, all := |spine|, spine + page;
      ChainsSideBySide(spine, page);
      if first == null {
        first := head;
      } else {
        Link(all, n, head);
      }
      last := Tail(head, all, n);
      spine := all;
    }

    /**
     becomeDC_drsuapi_pull_partition_recv: an understood reply replaces watermark and ids and links its page
     behind the last object; the tail pointer then is the true tail. Any other reply changes nothing.
     */
    method Recv(r: Reply, ghost page: seq<Item>) returns (w: WError)
      requires Valid()
      requires Understood(r) ==>
                 page != [] && page[0] == r.ctr.first && Chain(page) && NoRepeats(page) && forall x :: x in page ==> x !in spine
      modifies this, if last == null then {} else {last}
      ensures Valid()
      ensures w == Ok <==> Understood(r)
      ensures w == Ok ==> spine == old(spine) + page && last == page[|page| - 1] && last.next == null
      ensures w == Ok ==> mark == r.ctr.mark && invocationId == r.ctr.invocationId && sourceDsaGuid == r.ctr.sourceDsaGuid
      ensures w != Ok ==> spine == old(spine) && mark == old(mark) && invocationId == old(invocationId)
      ensures w != Ok ==> sourceDsaGuid == old(sourceDsaGuid) && last == old(last)
      ensures w == if r.Failed? then Error(r.error) else if Understood(r) then Ok else BadNetResp
    {
      if r.Failed? {
        return Error(r.error);
      }
      if !Understood(r) {
        return BadNetResp;
      }
      mark := r.ctr.mark;
      sourceDsaGuid := r.ctr.sourceDsaGuid;
      invocationId := r.ctr.invocationId;
      AppendNoRepeats(spine, page);
      AppendPage(r.ctr.first, page);
      w := Ok;
    }
  }

  lemma PrependChain(item: Item, page: seq<Item>)
    requires page != [] && Chain(page) && NoRepeats(page) && item !in page && item.next == page[0]
    ensures Chain([item] + page) && NoRepeats([item] + page)
  {
    var all := [item] + page;
    AppendNoRepeats([item], page);
    forall i | 0 <= i < |all| - 1
      ensures all[i].next == all[i + 1]
    {
      if i > 0 {
        assert page[i - 1].next == page[i];
      }
    }
  }

  /** A page as it comes off the wire: a fresh linked list of the given objects. */
  method BuildPage(objects: seq<Obj>) returns (head: Item, ghost page: seq<Item>)
    requires objects != []
    ensures fresh(page) && page != [] && page[0] == head && Chain(page) && NoRepeats(page)
    ensures Objects(page) == objects
  {
    var i := |objects| - 1;
    head := new Item(objects[i]);
    page := [head];
    while i > 0
      invariant 0 <= i < |objects| && |page| == |objects| - i
      invariant fresh(page) && page[0] == head && Chain(page) && NoRepeats(page)
      invariant forall j :: 0 <= j < |page| ==> page[j].obj == objects[i + j]
    {
      i := i - 1;
      var item := new Item(objects[i]);
      item.next := head;
      PrependChain(item, page);
      head, page := item, [item] + page;
    }
  }

  datatype Change = Change(usn: nat, obj: Obj)

  predicate Ordered(log: seq<Change>) {
    && (forall i :: 0 <= i < |log| ==> log[i].usn > 0)
    && (forall i, j :: 0 <= i < j < |log| ==> log[i].usn < log[j].usn)
  }

  function LogObjects(log: seq<Change>): seq<Obj> {
    seq(|log|, i requires 0 <= i < |log| => log[i].obj)
  }

  /** The watermark that stands after the first k changes. */
  predicate MarkAt(log: seq<Change>, k: nat, usn: nat) {
    k <= |log| && usn == if k == 0 then 0 else log[k - 1].usn
  }

  /** A replication source with a finite change log, which answers with the next page after the watermark. */
  class Source {
    const log: seq<Change>
    const guid: Guid
    const invocationId: Guid
    ghost var refused: bool          // some request was refused
    ghost var asked: seq<Request>    // every request that has arrived
    ghost var answered: seq<Ctr>     // every container that has been sent in reply

    ghost predicate Valid() {
      log != [] && Ordered(log)
    }

    constructor (log: seq<Change>, guid: Guid, invocationId: Guid)
      requires log != [] && Ordered(log)
      ensures Valid() && this.log == log && this.guid == guid && this.invocationId == invocationId
      ensures !refused && asked == [] && answered == []
    {
      this.log, this.guid, this.invocationId := log, guid, invocationId;
      refused, asked, answered := false, [], [];
    }

    /** IDL_DRSGetNCChanges: at most 133 changes, with a temporary watermark above the final one unless they are the last. */
    method GetChanges(req: Request, ghost k: nat) returns (r: Reply, ghost page: seq<Item>)
      requires Valid() && k < |log| && MarkAt(log, k, req.mark.tmpHighestUsn)
      modifies this
      ensures if r.Failed? then refused else Understood(r) && refused == old(refused)
      ensures asked == old(asked) + [req] && answered == old(answered) + (if r.Failed? then [] else [r.ctr])
      ensures Understood(r) ==>
                && fresh(page) && page != [] && page[0] == r.ctr.first && Chain(page) && NoRepeats(page)
                && k + |page| <= |log| && Objects(page) == LogObjects(log[k..k + |page|])
                && MarkAt(log, k + |page|, r.ctr.mark.tmpHighestUsn)
                && (r.ctr.mark.tmpHighestUsn > r.ctr.mark.highestUsn <==> k + |page| < |log|)
                && r.ctr.sourceDsaGuid == guid && r.ctr.invocationId == invocationId
    {
      page, asked := [], asked + [req];
      var fail: bool := *;
      if fail {
        refused := true;
        assert answered == old(answered) + [];
        return Failed(0), [];
      }
      var from := 0;
      while log[from].usn <= req.mark.tmpHighestUsn
        invariant 0 <= from <= k
        decreases k - from
      {
        from := from + 1;
      }
      assert from == k;
      var m :| 0 < m <= 133 && from + m <= |log|;
      var head;
      head, page := BuildPage(LogObjects(log[from..from + m]));
      var usn := log[from + m - 1].usn;
      assert usn > 0;
      var any: int := *;
      var highest := if from + m < |log| then (if 0 <= any < usn then any else usn - 1) else (if any > usn then any else usn);
      var ctr := Ctr(guid, invocationId, Mark(usn, highest), head);
      var level: nat := *;
      answered := answered + [ctr];
      r := if level == 1 then Level1(ctr) else if level == 2 then Level2(ctr) else if level == 6 then Level6(ctr) else Level7(6, true, ctr);
    }
  }

  /** Each request carries the watermark and invocation id of the reply before it, at one level throughout. */
  ghost predicate Resumes(requests: seq<Request>, replies: seq<Ctr>, level: nat, destination: Guid) {
    && |replies| <= |requests| <= |replies| + 1
    && (forall i :: 0 <= i < |requests| ==> requests[i].level == level && requests[i].destination == destination)
    && (requests != [] ==> requests[0].mark == Mark(0, 0) && requests[0].invocationId == 0)
    && (forall i :: 0 < i < |requests| ==>
          requests[i].mark == replies[i - 1].mark && requests[i].invocationId == replies[i - 1].invocationId)
  }

  /** What the pull of a fresh partition has collected after the given replies. */
  ghost predicate Pulled(p: Partition, log: seq<Change>, k: nat, requests: seq<Request>, replies: seq<Ctr>, level: nat)
    reads p, p.spine
  {
    && p.Valid() && k <= |log| && Objects(p.spine) == LogObjects(log[..k])
    && MarkAt(log, k, p.mark.tmpHighestUsn)
    && Resumes(requests, replies, level, p.destination) && |requests| == |replies|
    && if replies == [] then k == 0 && p.mark == Mark(0, 0) && p.invocationId == 0
       else p.mark == replies[|replies| - 1].mark && p.invocationId == replies[|replies| - 1].invocationId
            && (p.mark.tmpHighestUsn > p.mark.highestUsn <==> k < |log|)
  }

  lemma ObjectsAppend(spine: seq<Item>, page: seq<Item>, log: seq<Change>, k: nat)
    requires k + |page| <= |log| && Objects(spine) == LogObjects(log[..k]) && Objects(page) == LogObjects(log[k..k + |page|])
    ensures Objects(spine + page) == LogObjects(log[..k + |page|])
  {
    assert |spine| == |LogObjects(log[..k])| == k;
    forall i | 0 <= i < k + |page|
      ensures (spine + page)[i].obj == log[i].obj
    {
      if i < k {
        assert Objects(spine)[i] == LogObjects(log[..k])[i];
      } else {
        assert Objects(page)[i - k] == LogObjects(log[k..k + |page|])[i - k];
      }
    }
  }

  lemma ResumesMore(requests: seq<Request>, replies: seq<Ctr>, level: nat, destination: Guid, req: Request)
    requires Resumes(requests, replies, level, destination) && |requests| == |replies|
    requires req.level == level && req.destination == destination
    requires if replies == [] then req.mark == Mark(0, 0) && req.invocationId == 0
             else req.mark == replies[|replies| - 1].mark && req.invocationId == replies[|replies| - 1].invocationId
    ensures Resumes(requests + [req], replies, level, destination)
    ensures forall c :: Resumes(requests + [req], replies + [c], level, destination)
  {
  }

  /** One request and its reply; asked and answered are what the source had seen before the pull began. */
  method PullPage(p: Partition, source: Source, v8: bool, ghost k: nat,
                  ghost asked: seq<Request>, ghost answered: seq<Ctr>, ghost requests: seq<Request>, ghost replies: seq<Ctr>)
    returns (w: WError, ghost k': nat, ghost requests': seq<Request>, ghost replies': seq<Ctr>)
    requires source.Valid() && k < |source.log| && Pulled(p, source.log, k, requests, replies, if v8 then 8 else 5)
    requires source.asked == asked + requests && source.answered == answered + replies
    modifies p, source, if p.last == null then {} else {p.last}
    ensures w == Ok || source.refused
    ensures source.asked == asked + requests' && source.answered == answered + replies'
    ensures p.Valid() && fresh(set x | x in p.spine && x !in old(p.spine))
    ensures Resumes(requests', replies', if v8 then 8 else 5, p.destination)
    ensures |requests'| == |requests| + 1
    ensures w != Ok ==> p.spine == old(p.spine) && p.mark == old(p.mark) && p.invocationId == old(p.invocationId) && replies' == replies
    ensures w == Ok ==> k' > k && replies' != [] && Pulled(p, source.log, k', requests', replies', if v8 then 8 else 5)
  {
    var req := p.NextRequest(v8);
    var r, page := source.GetChanges(req, k);
    ghost var spine := p.spine;
    w := p.Recv(r, page);
    ResumesMore(requests, replies, if v8 then 8 else 5, p.destination, req);
    k', requests', replies' := k, requests + [req], replies;
    if w == Ok {
      ObjectsAppend(spine, page, source.log, k);
      replies' := replies + [r.ctr];
      k' := k + |page|;
    }
  }

  lemma PrefixOfLog(log: seq<Change>, k: nat)
    requires k <= |log|
    ensures LogObjects(log[..k]) <= LogObjects(log)
  {
  }

  /**
   The pull loop of one partition: it ends, and the list is then exactly the source's log. What the source has
   seen since the start is a chain of requests, each of which resumes from the reply before it.
   */
  method Pull(p: Partition, source: Source, v8: bool) returns (w: WError)
    requires p.Valid() && p.spine == [] && p.mark == Mark(0, 0) && p.invocationId == 0 && source.Valid()
    modifies p, source
    ensures w == Ok || source.refused
    ensures old(source.asked) <= source.asked && old(source.answered) <= source.answered
    ensures var requests, replies := source.asked[|old(source.asked)|..], source.answered[|old(source.answered)|..];
            && Resumes(requests, replies, if v8 then 8 else 5, p.destination)
            && |requests| == |replies| + (if w == Ok then 0 else 1) && requests != []
            && (replies != [] ==> p.mark == replies[|replies| - 1].mark && p.invocationId == replies[|replies| - 1].invocationId)
    ensures p.Valid()
    ensures w == Ok ==> Objects(p.spine) == LogObjects(source.log)
    ensures w != Ok ==> Objects(p.spine) <= LogObjects(source.log)
  {
    ghost var requests: seq<Request>, replies: seq<Ctr> := [], [];
    ghost var k := 0;
    ghost var level := if v8 then 8 else 5;
    w := Ok;
    while true
      invariant Pulled(p, source.log, k, requests, replies, level) && k < |source.log|
      invariant source.asked == old(source.asked) + requests && source.answered == old(source.answered) + replies
      invariant fresh(p.spine)
      decreases |source.log| - k
    {
      PrefixOfLog(source.log, k);
      w, k, requests, replies := PullPage(p, source, v8, k, old(source.asked), old(source.answered), requests, replies);
      if w != Ok {
        return;
      }
      if p.mark.tmpHighestUsn <= p.mark.highestUsn {
        assert source.log[..k] == source.log;
        return;
      }
    }
  }
}
