/** The authentication context of auth.c: its challenge, and the dispatch of password checks to its methods. */
module AuthContext {
  import opened Wrappers
  import opened Bytes

  datatype Status = Ok | NotImplemented | NoSuchUser | InternalError | Other(code: nat)

  /** What the get_challenge of a method answers. */
  datatype Offer = Offer(status: Status, challenge: seq<byte>)

  /** The place of the first method, in list order, that does not answer NOT_IMPLEMENTED. */
  function FirstWilling(wants: seq<Status>): (r: Option<nat>)
    ensures r.None? ==> forall j :: 0 <= j < |wants| ==> wants[j] == NotImplemented
    ensures r.Some? ==> r.value < |wants| && wants[r.value] != NotImplemented
    ensures r.Some? ==> forall j :: 0 <= j < r.value ==> wants[j] == NotImplemented
  {
    if wants == [] then None
    else if wants[0] != NotImplemented then Some(0)
    else match FirstWilling(wants[1..])
      case None => None
      case Some(i) => Some(i + 1)
  }

  /** Every method answers NOT_IMPLEMENTED. */
  predicate NoneAnswers(answers: seq<Status>) {
    forall j :: 0 <= j < |answers| ==> answers[j] == NotImplemented
  }

  /** The i-th method does not, and all before it do. */
  predicate FirstToAnswer(answers: seq<Status>, i: nat) {
    i < |answers| && answers[i] != NotImplemented && forall j :: 0 <= j < i ==> answers[j] == NotImplemented
  }

  lemma FirstWillingIs(answers: seq<Status>)
    ensures NoneAnswers(answers) <==> FirstWilling(answers) == None
    ensures forall i: nat :: FirstToAnswer(answers, i) <==> FirstWilling(answers) == Some(i)
  {
  }

  function Statuses(offers: seq<Offer>): seq<Status> {
    seq(|offers|, i requires 0 <= i < |offers| => offers[i].status)
  }

  /** The place of the first method that has something to say about the challenge. */
  function FirstOffer(offers: seq<Offer>): (r: Option<nat>)
    ensures r.None? ==> forall j :: 0 <= j < |offers| ==> offers[j].status == NotImplemented
    ensures r.Some? ==> r.value < |offers| && offers[r.value].status != NotImplemented
    ensures r.Some? ==> forall j :: 0 <= j < r.value ==> offers[j].status == NotImplemented
  {
    assert forall j :: 0 <= j < |offers| ==> Statuses(offers)[j] == offers[j].status;
    FirstWilling(Statuses(offers))
  }

  /** Whether the first method with something to say offers a challenge that can be used. */
  function AcquireStatus(offers: seq<Offer>): Status {
    match FirstOffer(offers)
    case None => Ok
    case Some(i) =>
      if offers[i].status != Ok then offers[i].status
      else if |offers[i].challenge| != 8 then InternalError
      else Ok
  }

  /** The challenge that the methods, or else the random bytes, give to a context without one. */
  function Acquired(offers: seq<Offer>, random: seq<byte>): (r: seq<byte>)
    requires |random| == 8
    ensures |r| == if AcquireStatus(offers) == Ok then 8 else 0
  {
    if AcquireStatus(offers) != Ok then []
    else match FirstOffer(offers)
      case None => random
      case Some(i) => offers[i].challenge
  }

  /** What the methods answer makes a challenge: none has one, or the first that speaks offers 8 bytes. */
  predicate Usable(offers: seq<Offer>) {
    || NoneAnswers(Statuses(offers))
    || exists i :: 0 <= i < |offers| && FirstToAnswer(Statuses(offers), i) && offers[i].status == Ok && |offers[i].challenge| == 8
  }

  /** The challenge is the one offered by the first method that speaks, or the random bytes when none does. */
  ghost predicate IsOffered(offers: seq<Offer>, random: seq<byte>, challenge: seq<byte>) {
    && (NoneAnswers(Statuses(offers)) ==> challenge == random)
    && (forall i: nat :: FirstToAnswer(Statuses(offers), i) ==> challenge == offers[i].challenge)
  }

  /** Why there is no challenge: the first method that speaks fails, or offers one of the wrong size. */
  ghost predicate IsWhy(offers: seq<Offer>, status: Status) {
    forall i: nat :: FirstToAnswer(Statuses(offers), i) ==>
      status == if offers[i].status != Ok then offers[i].status else InternalError
  }

  lemma AcquiredIs(offers: seq<Offer>, random: seq<byte>)
    requires |random| == 8
    ensures AcquireStatus(offers) == Ok <==> Usable(offers)
    ensures if Usable(offers) then |Acquired(offers, random)| == 8 && IsOffered(offers, random, Acquired(offers, random))
            else Acquired(offers, random) == [] && IsWhy(offers, AcquireStatus(offers))
  {
    FirstWillingIs(Statuses(offers));
    var r := FirstOffer(offers);
    if r.Some? {
      assert FirstToAnswer(Statuses(offers), r.value);
    }
  }

  /** A request waiting for its timed event, and a callback made for a request. */
  datatype Pending = Pending(id: nat, handler: nat)

  datatype Callback = Callback(id: nat, status: Status, handler: Option<nat>)

  function CountPending(ps: seq<Pending>, id: nat): nat {
    if ps == [] then 0 else (if ps[0].id == id then 1 else 0) + CountPending(ps[1..], id)
  }

  function CountCalls(cs: seq<Callback>, id: nat): nat {
    if cs == [] then 0 else (if cs[0].id == id then 1 else 0) + CountCalls(cs[1..], id)
  }

  lemma {:induction false} CountPendingAppend(a: seq<Pending>, b: seq<Pending>, id: nat)
    ensures CountPending(a + b, id) == CountPending(a, id) + CountPending(b, id)
  {
    if a == [] {
      assert a + b == b;
    } else {
      assert (a + b)[1..] == a[1..] + b;
      CountPendingAppend(a[1..], b, id);
    }
  }

  lemma {:induction false} CountCallsAppend(a: seq<Callback>, c: Callback, id: nat)
    ensures CountCalls(a + [c], id) == CountCalls(a, id) + (if c.id == id then 1 else 0)
  {
    if a == [] {
      assert [c][1..] == [];
    } else {
      assert (a + [c])[1..] == a[1..] + [c];
      CountCallsAppend(a[1..], c, id);
    }
  }

  /** Each request sent is waiting for its one event or has had its one callback, never both. */
  ghost predicate Balanced(pending: seq<Pending>, calls: seq<Callback>, sent: nat) {
    forall id: nat :: CountPending(pending, id) + CountCalls(calls, id) == if id < sent then 1 else 0
  }

  lemma CalledBack(pending: seq<Pending>, calls: seq<Callback>, sent: nat, c: Callback)
    requires Balanced(pending, calls, sent) && c.id == sent
    ensures Balanced(pending, calls + [c], sent + 1)
  {
    forall id: nat
      ensures CountCalls(calls + [c], id) == CountCalls(calls, id) + (if c.id == id then 1 else 0)
    {
      CountCallsAppend(calls, c, id);
    }
  }

  lemma Scheduled(pending: seq<Pending>, calls: seq<Callback>, sent: nat, p: Pending)
    requires Balanced(pending, calls, sent) && p.id == sent
    ensures Balanced(pending + [p], calls, sent + 1)
  {
    forall id: nat
      ensures CountPending(pending + [p], id) == CountPending(pending, id) + (if p.id == id then 1 else 0)
    {
      CountPendingAppend(pending, [p], id);
    }
  }

  lemma Fired(pending: seq<Pending>, calls: seq<Callback>, sent: nat, k: nat, c: Callback)
    requires Balanced(pending, calls, sent) && k < |pending| && c.id == pending[k].id
    ensures Balanced(pending[..k] + pending[k + 1..], calls + [c], sent)
  {
    var p := pending[k];
    forall id: nat
      ensures CountPending(pending[..k] + pending[k + 1..], id) + CountCalls(calls + [c], id)
           == CountPending(pending, id) + CountCalls(calls, id)
    {
      CountCallsAppend(calls, c, id);
      CountPendingAppend(pending[..k], pending[k + 1..], id);
      CountPendingAppend(pending[..k], [p], id);
      CountPendingAppend(pending[..k] + [p], pending[k + 1..], id);
      assert pending[..k] + [p] + pending[k + 1..] == pending;
    }
  }

  /** A password check goes to a method: the first one in the list that does not answer NOT_IMPLEMENTED, if it wants it. */
  predicate Dispatched(held: seq<byte>, mapped: Status, wants: seq<Status>) {
    mapped == Ok && held != [] && FirstWilling(wants).Some? && wants[FirstWilling(wants).value] == Ok
  }

  /** The callback of a check that goes to no method; held is the challenge that the context has by then. */
  function AtOnce(held: seq<byte>, id: nat, mapped: Status, offers: seq<Offer>, wants: seq<Status>): Callback {
    if mapped != Ok then Callback(id, mapped, None)
    else if held == [] then Callback(id, AcquireStatus(offers), None)
    else match FirstWilling(wants)
      case None => Callback(id, NoSuchUser, None)
      case Some(i) => Callback(id, wants[i], Some(i))
  }

  /** The callback that firing the request at place k makes, if there is one. */
  function FiredAt(waiting: seq<Pending>, k: nat, verdicts: nat -> Status): seq<Callback> {
    if k < |waiting| then [Callback(waiting[k].id, verdicts(waiting[k].id), Some(waiting[k].handler))] else []
  }

  function Without(waiting: seq<Pending>, k: nat): seq<Pending> {
    if k < |waiting| then waiting[..k] + waiting[k + 1..] else waiting
  }

  /** What was called back, and what the waiting events will call back, is what is due. */
  ghost predicate OnlyDue(pending: seq<Pending>, calls: seq<Callback>, due: seq<Callback>, verdicts: nat -> Status) {
    && (forall c :: c in calls ==> c.id < |due| && c == due[c.id])
    && (forall p :: p in pending ==> p.id < |due| && due[p.id] == Callback(p.id, verdicts(p.id), Some(p.handler)))
  }

  lemma OneMoreCalled(pending: seq<Pending>, calls: seq<Callback>, due: seq<Callback>, verdicts: nat -> Status, c: Callback)
    requires OnlyDue(pending, calls, due, verdicts) && c.id == |due|
    ensures OnlyDue(pending, calls + [c], due + [c], verdicts)
  {
  }

  lemma OneMoreWaits(pending: seq<Pending>, calls: seq<Callback>, due: seq<Callback>, verdicts: nat -> Status, p: Pending)
    requires OnlyDue(pending, calls, due, verdicts) && p.id == |due|
    ensures OnlyDue(pending + [p], calls, due + [Callback(p.id, verdicts(p.id), Some(p.handler))], verdicts)
  {
  }

  class Context {
    const methods: seq<string>  // the names of the methods, in the order in which they are asked
    var data: seq<byte>
    var setBy: Option<string>
    var mayBeModified: bool

    var pending: seq<Pending>
    var calls: seq<Callback>
    var sent: nat

    ghost predicate Valid()
      reads this
    {
      && (data == [] || |data| == 8) && (data == [] <==> setBy == None)
      && Balanced(pending, calls, sent)
      && (forall i :: 0 <= i < |pending| ==> pending[i].handler < |methods|)
    }

    constructor (methods: seq<string>)
      ensures Valid() && this.methods == methods && data == [] && sent == 0 && calls == [] && pending == []
    {
      this.methods := methods;
      data, setBy, mayBeModified := [], None, false;
      pending, calls, sent := [], [], 0;
    }

    /** auth_context_set_challenge */
    method SetChallenge(challenge: seq<byte>, who: string)
      requires Valid() && |challenge| == 8
      modifies this`data, this`setBy
      ensures Valid() && data == challenge && setBy == Some(who)
    {
      setBy := Some(who);
      data := challenge;
    }

    /** auth_get_challenge; offers are what the methods would answer, random what the generator gives. */
    method GetChallenge(offers: seq<Offer>, random: seq<byte>) returns (status: Status, challenge: seq<byte>)
      requires Valid() && |offers| == |methods| && |random| == 8
      modifies this`data, this`setBy, this`mayBeModified
      ensures Valid() && challenge == data
      ensures if old(data) != [] then status == Ok && data == old(data) && setBy == old(setBy) && mayBeModified == old(mayBeModified)
              else status == AcquireStatus(offers) && data == Acquired(offers, random)
      ensures status != Ok ==> setBy == old(setBy) && mayBeModified == old(mayBeModified)
      ensures old(data) == [] && status == Ok ==>
                match FirstOffer(offers)
                case None => setBy == Some("random") && mayBeModified
                case Some(i) => setBy == Some(methods[i]) && mayBeModified == old(mayBeModified)
    {
      challenge := [];
      if |data| != 0 {
        return Ok, data;
      }
      var i := 0;
      while i < |methods|
        invariant 0 <= i <= |methods| && data == old(data) && setBy == old(setBy)
        invariant mayBeModified == old(mayBeModified)
        invariant forall j :: 0 <= j < i ==> offers[j].status == NotImplemented
      {
        if offers[i].status == NotImplemented {
          i := i + 1;
          continue;
        }
        if offers[i].status != Ok {
          return offers[i].status, [];
        }
        if |offers[i].challenge| != 8 {
          return InternalError, [];
        }
        data := offers[i].challenge;
        setBy := Some(methods[i]);
        break;
      }
      if setBy == None {
        data := random;
        setBy := Some("random");
        mayBeModified := true;
      }
      return Ok, data;
    }

    /** The end of a request without a timed event: the callback is made at once. */
    method CallBack(status: Status, handler: Option<nat>)
      requires Valid()
      modifies this`calls, this`sent
      ensures Valid() && sent == old(sent) + 1
      ensures calls == old(calls) + [Callback(old(sent), status, handler)]
    {
      CalledBack(pending, calls, sent, Callback(sent, status, handler));
      calls := calls + [Callback(sent, status, handler)];
      sent := sent + 1;
    }

    /** auth_check_password_send: one callback at once, or one timed event for the first method that wants the check. */
    method Send(mapped: Status, offers: seq<Offer>, random: seq<byte>, wants: seq<Status>)
      requires Valid() && |offers| == |wants| == |methods| && |random| == 8
      modifies this
      ensures Valid() && sent == old(sent) + 1
      ensures data == if mapped == Ok && old(data) == [] then Acquired(offers, random) else old(data)
      ensures if Dispatched(data, mapped, wants)
              then pending == old(pending) + [Pending(old(sent), FirstWilling(wants).value)] && calls == old(calls)
              else pending == old(pending) && calls == old(calls) + [AtOnce(data, old(sent), mapped, offers, wants)]
    {
      if mapped != Ok {
        CallBack(mapped, None);
        return;
      }
      var status, challenge := GetChallenge(offers, random);
      if status != Ok {
        CallBack(status, None);
        return;
      }
      for i := 0 to |methods|
        invariant Valid() && data != [] && pending == old(pending) && calls == old(calls) && sent == old(sent)
        invariant forall j :: 0 <= j < i ==> wants[j] == NotImplemented
      {
        if wants[i] != NotImplemented {
          if wants[i] != Ok {
            CallBack(wants[i], Some(i));
            return;
          }
          Scheduled(pending, calls, sent, Pending(sent, i));
          pending := pending + [Pending(sent, i)];
          sent := sent + 1;
          return;
        }
      }
      CallBack(NoSuchUser, None);
    }

    /** The timed handler of one of the waiting requests: its method decides, and the callback is made. */
    method Fire(k: nat, verdict: Status)
      requires Valid() && k < |pending|
      modifies this`pending, this`calls
      ensures Valid()
      ensures pending == old(pending)[..k] + old(pending)[k + 1..]
      ensures calls == old(calls) + [Callback(old(pending)[k].id, verdict, Some(old(pending)[k].handler))]
    {
      var p := pending[k];
      var c := Callback(p.id, verdict, Some(p.handler));
      Fired(pending, calls, sent, k, c);
      pending := pending[..k] + pending[k + 1..];
      calls := calls + [c];
    }

    /** What is pending, and what was called back, is what was due. */
    ghost predicate Keeps(due: seq<Callback>, verdicts: nat -> Status)
      reads this
    {
      |due| == sent && OnlyDue(pending, calls, due, verdicts)
    }

    /** The timed handler of the request at the given place, if there is one; each method decides as given. */
    method FireAny(k: nat, verdicts: nat -> Status, ghost due: seq<Callback>)
      requires Valid() && Keeps(due, verdicts)
      modifies this`pending, this`calls
      ensures Valid() && Keeps(due, verdicts)
      ensures pending == Without(old(pending), k) && calls == old(calls) + FiredAt(old(pending), k, verdicts)
    {
      if k < |pending| {
        assert pending[k] in pending;
        Fire(k, verdicts(pending[k].id));
      }
    }

    /** Running the event loop dry: every request ever sent has then had exactly one callback, the one that was due. */
    method Drain(verdicts: nat -> Status, ghost due: seq<Callback>)
      requires Valid() && Keeps(due, verdicts)
      modifies this`pending, this`calls
      ensures Valid() && Keeps(due, verdicts) && pending == []
      ensures forall id: nat :: CountCalls(calls, id) == if id < sent then 1 else 0
    {
      while pending != []
        invariant Valid() && Keeps(due, verdicts)
        decreases |pending|
      {
        var k :| 0 <= k < |pending|;
        FireAny(k, verdicts, due);
      }
    }
  }

  datatype Call =
    | Set(challenge: seq<byte>, who: string)
    | Get(offers: seq<Offer>, random: seq<byte>)
    | Check(mapped: Status, offers: seq<Offer>, random: seq<byte>, wants: seq<Status>)
    | Event(which: nat)

  /** What a call returns, and the callbacks made before it returns. */
  datatype Result = Result(got: Option<(Status, seq<byte>)>, made: seq<Callback>)

  predicate Callable(call: Call, methods: nat) {
    match call
    case Set(challenge, _) => |challenge| == 8
    case Get(offers, random) => |offers| == methods && |random| == 8
    case Check(_, offers, random, wants) => |offers| == |wants| == methods && |random| == 8
    case Event(_) => true
  }

  predicate AllCallable(calls: seq<Call>, methods: nat) {
    forall i :: 0 <= i < |calls| ==> Callable(calls[i], methods)
  }

  /** The challenge that a context holds after one more call. */
  function HeldNext(held: seq<byte>, call: Call, methods: nat): seq<byte>
    requires Callable(call, methods)
  {
    match call
    case Set(challenge, _) => challenge
    case Get(offers, random) => if held == [] then Acquired(offers, random) else held
    case Check(mapped, offers, random, _) => if held == [] && mapped == Ok then Acquired(offers, random) else held
    case Event(_) => held
  }

  function Held(calls: seq<Call>, methods: nat): seq<byte>
    requires AllCallable(calls, methods)
  {
    if calls == [] then [] else HeldNext(Held(calls[..|calls| - 1], methods), calls[|calls| - 1], methods)
  }

  /** Once there is a challenge it has 8 bytes, and stays the same until an explicit set. */
  lemma {:induction false} HeldSteady(calls: seq<Call>, methods: nat, i: nat)
    requires AllCallable(calls, methods) && i <= |calls| && forall k :: i <= k < |calls| ==> !calls[k].Set?
    ensures Held(calls, methods) == [] || |Held(calls, methods)| == 8
    ensures Held(calls[..i], methods) != [] ==> Held(calls, methods) == Held(calls[..i], methods)
    decreases |calls|
  {
    if i == |calls| {
      assert calls[..i] == calls;
      if i > 0 {
        HeldSteady(calls[..i - 1], methods, i - 1);
      }
    } else {
      var before := calls[..|calls| - 1];
      assert before[..i] == calls[..i];
      HeldSteady(before, methods, i);
    }
  }

  /** What the check with the given number is told, now or when its event fires. */
  function DueFor(held: seq<byte>, id: nat, call: Call, verdicts: nat -> Status): Callback
    requires call.Check?
  {
    if Dispatched(held, call.mapped, call.wants) then Callback(id, verdicts(id), Some(FirstWilling(call.wants).value))
    else AtOnce(held, id, call.mapped, call.offers, call.wants)
  }

  /** The callbacks that the checks of a run lead to, in the order of the checks. */
  function Due(calls: seq<Call>, methods: nat, verdicts: nat -> Status): seq<Callback>
    requires AllCallable(calls, methods)
  {
    if calls == [] then []
    else
      var n := |calls| - 1;
      var before := Due(calls[..n], methods, verdicts);
      if calls[n].Check? then before + [DueFor(Held(calls, methods), |before|, calls[n], verdicts)] else before
  }

  function Checks(calls: seq<Call>): nat {
    if calls == [] then 0 else Checks(calls[..|calls| - 1]) + (if calls[|calls| - 1].Check? then 1 else 0)
  }

  /** The requests that wait for their timed event after a run of calls. */
  function Waiting(calls: seq<Call>, methods: nat): seq<Pending>
    requires AllCallable(calls, methods)
  {
    if calls == [] then []
    else
      var n := |calls| - 1;
      var before := Waiting(calls[..n], methods);
      match calls[n]
      case Check(mapped, _, _, wants) =>
        if Dispatched(Held(calls, methods), mapped, wants)
        then before + [Pending(Checks(calls[..n]), FirstWilling(wants).value)] else before
      case Event(which) => Without(before, which)
      case _ => before
  }

  lemma {:induction false} DueForEachCheck(calls: seq<Call>, methods: nat, verdicts: nat -> Status)
    requires AllCallable(calls, methods)
    ensures |Due(calls, methods, verdicts)| == Checks(calls)
  {
    if calls != [] {
      DueForEachCheck(calls[..|calls| - 1], methods, verdicts);
    }
  }

  /** The results of a run, call by call. */
  ghost predicate Answered(calls: seq<Call>, methods: nat, verdicts: nat -> Status, results: seq<Result>)
    requires AllCallable(calls, methods) && |results| <= |calls|
  {
    forall i :: 0 <= i < |results| ==> results[i] == Returns(calls[..i], calls[i], methods, verdicts)
  }

  /** Call j is a get, call i a set or a get that worked, and there is no set between them. */
  predicate SameChallenge(calls: seq<Call>, results: seq<Result>, i: nat, j: nat)
    requires i < j < |calls| == |results|
  {
    && calls[j].Get? && (forall k :: i < k < j ==> !calls[k].Set?)
    && (calls[i].Set? || (calls[i].Get? && results[i].got.Some? && results[i].got.value.0 == Ok))
  }

  function Origin(calls: seq<Call>, results: seq<Result>, i: nat): seq<byte>
    requires i < |calls| == |results|
  {
    if calls[i].Set? then calls[i].challenge else if results[i].got.Some? then results[i].got.value.1 else []
  }

  /** No two gets without a set between them disagree, and no get disagrees with the set before it. */
  ghost predicate Agreeing(calls: seq<Call>, results: seq<Result>)
    requires |calls| == |results|
  {
    forall i, j :: 0 <= i < j < |calls| && SameChallenge(calls, results, i, j) ==>
      results[j].got == Some((Ok, Origin(calls, results, i))) && |Origin(calls, results, i)| == 8
  }

  /** What is held after call i is held before call j, if there is no set between them. */
  lemma HeldBetween(calls: seq<Call>, methods: nat, i: nat, j: nat)
    requires AllCallable(calls, methods) && i < j <= |calls| && forall k :: i < k < j ==> !calls[k].Set?
    requires Held(calls[..i + 1], methods) != []
    ensures Held(calls[..j], methods) == Held(calls[..i + 1], methods) && |Held(calls[..j], methods)| == 8
  {
    var upTo := calls[..j];
    assert upTo[..i + 1] == calls[..i + 1];
    HeldSteady(upTo, methods, i + 1);
  }

  /** A set, or a get that worked, leaves the challenge that it gave or returned. */
  lemma OriginHeld(calls: seq<Call>, methods: nat, verdicts: nat -> Status, results: seq<Result>, i: nat)
    requires AllCallable(calls, methods) && i < |calls| == |results| && Answered(calls, methods, verdicts, results)
    requires calls[i].Set? || (calls[i].Get? && results[i].got.Some? && results[i].got.value.0 == Ok)
    ensures Held(calls[..i + 1], methods) == Origin(calls, results, i) != []
  {
    assert calls[..i + 1][..i] == calls[..i];
    HeldSteady(calls[..i], methods, i);
  }

  /** Every later get returns the same 8 bytes until an explicit set, and a set is what the gets after it return. */
  lemma GetsAgree(calls: seq<Call>, methods: nat, verdicts: nat -> Status, results: seq<Result>, i: nat, j: nat)
    requires AllCallable(calls, methods) && i < j < |calls| == |results| && Answered(calls, methods, verdicts, results)
    requires SameChallenge(calls, results, i, j)
    ensures results[j].got == Some((Ok, Origin(calls, results, i))) && |Origin(calls, results, i)| == 8
  {
    OriginHeld(calls, methods, verdicts, results, i);
    HeldBetween(calls, methods, i, j);
  }

  lemma AllAgree(calls: seq<Call>, methods: nat, verdicts: nat -> Status, results: seq<Result>)
    requires AllCallable(calls, methods) && |calls| == |results| && Answered(calls, methods, verdicts, results)
    ensures Agreeing(calls, results)
  {
    forall i, j | 0 <= i < j < |calls| && SameChallenge(calls, results, i, j)
      ensures results[j].got == Some((Ok, Origin(calls, results, i))) && |Origin(calls, results, i)| == 8
    {
      GetsAgree(calls, methods, verdicts, results, i, j);
    }
  }

  // ----- the results of a run, in terms of the answers given in it -----

  /** A call that gives a context without a challenge one. */
  predicate Gives(call: Call) {
    match call
    case Set(_, _) => true
    case Get(offers, _) => Usable(offers)
    case Check(mapped, offers, _, _) => mapped == Ok && Usable(offers)
    case Event(_) => false
  }

  ghost predicate Gave(call: Call, challenge: seq<byte>) {
    match call
    case Set(given, _) => challenge == given
    case Get(offers, random) => IsOffered(offers, random, challenge)
    case Check(_, offers, random, _) => IsOffered(offers, random, challenge)
    case Event(_) => false
  }

  /** Call i gave the challenge held after n calls: it is the last set, or the first call that gives one when there is no set. */
  predicate Source(calls: seq<Call>, i: nat, n: nat) {
    && i < n <= |calls| && Gives(calls[i]) && (forall k :: i < k < n ==> !calls[k].Set?)
    && (calls[i].Set? || forall k :: 0 <= k < i ==> !Gives(calls[k]))
  }

  predicate Challenged(calls: seq<Call>, n: nat) {
    exists i :: 0 <= i < n && i < |calls| && Gives(calls[i])
  }

  lemma HeldStep(held: seq<byte>, call: Call, methods: nat)
    requires Callable(call, methods)
    ensures HeldNext(held, call, methods) == [] <==> held == [] && !Gives(call)
    ensures Gives(call) && (held == [] || call.Set?) ==> Gave(call, HeldNext(held, call, methods))
    ensures held != [] && !call.Set? ==> HeldNext(held, call, methods) == held
  {
    match call
    case Get(offers, random) => AcquiredIs(offers, random);
    case Check(_, offers, random, _) => AcquiredIs(offers, random);
    case _ =>
  }

  lemma ChallengedMore(calls: seq<Call>, call: Call)
    ensures Challenged(calls + [call], |calls| + 1) <==> Challenged(calls, |calls|) || Gives(call)
  {
    var longer := calls + [call];
    assert longer[|calls|] == call;
    if Challenged(calls, |calls|) {
      var i :| 0 <= i < |calls| && Gives(calls[i]);
      assert Gives(longer[i]);
    }
  }

  /** The source after one more call is the one before, or that call. */
  lemma SourceMore(calls: seq<Call>, call: Call, i: nat)
    requires Source(calls + [call], i, |calls| + 1)
    ensures if i < |calls| then Source(calls, i, |calls|) && !call.Set?
            else i == |calls| && Gives(call) && (call.Set? || !Challenged(calls, |calls|))
  {
    var longer := calls + [call];
    assert forall k :: 0 <= k < |calls| ==> longer[k] == calls[k];
    assert longer[|calls|] == call;
  }

  /** There is a challenge exactly when some call gave one, and it is the one that the source of it gave. */
  lemma {:induction false} HeldFrom(calls: seq<Call>, methods: nat)
    requires AllCallable(calls, methods)
    ensures Held(calls, methods) != [] <==> Challenged(calls, |calls|)
    ensures forall i: nat :: Source(calls, i, |calls|) ==> Gave(calls[i], Held(calls, methods))
  {
    if calls != [] {
      var n := |calls| - 1;
      var before, call := calls[..n], calls[n];
      assert calls == before + [call];
      HeldFrom(before, methods);
      HeldStep(Held(before, methods), call, methods);
      ChallengedMore(before, call);
      forall i: nat | Source(calls, i, |calls|)
        ensures Gave(calls[i], Held(calls, methods))
      {
        SourceMore(before, call, i);
      }
    }
  }

  /** A challenge has one source. */
  lemma {:induction false} SourceExists(calls: seq<Call>, n: nat)
    requires n <= |calls| && Challenged(calls, n)
    ensures exists i: nat :: Source(calls, i, n)
  {
    var last := n - 1;
    if calls[last].Set? || !Challenged(calls, last) {
      assert Source(calls, last, n);
    } else {
      SourceExists(calls, last);
      var i: nat :| Source(calls, i, last);
      assert Source(calls, i, n);
    }
  }

  /** Get j returns the challenge of its source, or the reason why there is none. */
  ghost predicate GetRight(calls: seq<Call>, j: nat, got: (Status, seq<byte>))
    requires j < |calls| && calls[j].Get?
  {
    if Challenged(calls, j + 1) then got.0 == Ok && exists i: nat :: Source(calls, i, j + 1) && Gave(calls[i], got.1)
    else got.1 == [] && got.0 != Ok && IsWhy(calls[j].offers, got.0)
  }

  lemma SourceUpTo(calls: seq<Call>, i: nat, n: nat)
    requires n <= |calls|
    ensures Source(calls[..n], i, n) <==> Source(calls, i, n)
  {
  }

  lemma ChallengedUpTo(calls: seq<Call>, n: nat)
    requires n <= |calls|
    ensures Challenged(calls[..n], n) <==> Challenged(calls, n)
  {
    if Challenged(calls, n) {
      var i :| 0 <= i < n && Gives(calls[i]);
      assert Gives(calls[..n][i]);
    }
  }

  /** The challenge held after n calls of a run. */
  lemma HeldAfter(calls: seq<Call>, methods: nat, n: nat)
    requires AllCallable(calls, methods) && n <= |calls|
    ensures Held(calls[..n], methods) != [] <==> Challenged(calls, n)
    ensures Challenged(calls, n) ==> exists i: nat :: Source(calls, i, n) && Gave(calls[i], Held(calls[..n], methods))
  {
    var upTo := calls[..n];
    HeldFrom(upTo, methods);
    ChallengedUpTo(calls, n);
    if Challenged(calls, n) {
      SourceExists(calls, n);
      var i: nat :| Source(calls, i, n);
      SourceUpTo(calls, i, n);
      assert upTo[i] == calls[i];
    }
  }

  lemma GetsRight(calls: seq<Call>, methods: nat, j: nat)
    requires AllCallable(calls, methods) && j < |calls| && calls[j].Get?
    ensures var held, c := Held(calls[..j], methods), calls[j];
            GetRight(calls, j, if held != [] then (Ok, held) else (AcquireStatus(c.offers), Acquired(c.offers, c.random)))
  {
    assert calls[..j + 1][..j] == calls[..j];
    HeldAfter(calls, methods, j + 1);
    AcquiredIs(calls[j].offers, calls[j].random);
  }

  /**
   What the check at n must be told, in terms of what its methods answer: the first that wants it has its verdict
   passed on, the first that speaks otherwise has its own status passed on, and when none speaks there is no such user.
   */
  ghost predicate CheckRight(calls: seq<Call>, n: nat, verdict: Status, status: Status, handler: Option<nat>)
    requires n < |calls| && calls[n].Check?
  {
    var wants := calls[n].wants;
    if calls[n].mapped != Ok then status == calls[n].mapped && handler == None
    else if !Challenged(calls, n + 1) then status != Ok && handler == None && IsWhy(calls[n].offers, status)
    else
      && (NoneAnswers(wants) ==> status == NoSuchUser && handler == None)
      && (forall i: nat :: FirstToAnswer(wants, i) ==>
            handler == Some(i) && status == if wants[i] == Ok then verdict else wants[i])
  }

  lemma ChecksRight(calls: seq<Call>, methods: nat, n: nat, id: nat, verdicts: nat -> Status)
    requires AllCallable(calls, methods) && n < |calls| && calls[n].Check?
    ensures var told := DueFor(Held(calls[..n + 1], methods), id, calls[n], verdicts);
            CheckRight(calls, n, verdicts(id), told.status, told.handler)
  {
    var c := calls[n];
    HeldAfter(calls, methods, n + 1);
    FirstWillingIs(c.wants);
    AcquiredIs(c.offers, c.random);
    if !Challenged(calls, n + 1) && c.mapped == Ok {
      assert !Gives(calls[n]);
    }
  }

  /** The check at n is the request with that number, and this is the right callback for it. */
  ghost predicate CallbackRight(calls: seq<Call>, n: nat, verdicts: nat -> Status, c: Callback) {
    && n < |calls| && calls[n].Check? && c.id == Checks(calls[..n])
    && CheckRight(calls, n, verdicts(c.id), c.status, c.handler)
  }

  lemma ChallengedLonger(calls: seq<Call>, more: Call, n: nat)
    requires n <= |calls|
    ensures Challenged(calls + [more], n) <==> Challenged(calls, n)
  {
    var longer := calls + [more];
    assert longer[..n] == calls[..n];
    ChallengedUpTo(longer, n);
    ChallengedUpTo(calls, n);
  }

  /** What is right for a check stays right when the run goes on. */
  lemma RightLonger(calls: seq<Call>, more: Call, n: nat, verdicts: nat -> Status, c: Callback)
    requires CallbackRight(calls, n, verdicts, c)
    ensures CallbackRight(calls + [more], n, verdicts, c)
  {
    assert (calls + [more])[..n] == calls[..n];
    ChallengedLonger(calls, more, n + 1);
  }

  lemma {:induction false} ChecksGrow(calls: seq<Call>, n: nat)
    requires n < |calls| && calls[n].Check?
    ensures Checks(calls[..n]) < Checks(calls)
    decreases |calls|
  {
    var before := calls[..|calls| - 1];
    if n < |calls| - 1 {
      assert before[..n] == calls[..n];
      ChecksGrow(before, n);
    }
  }

  /** What is due goes on being due. */
  lemma DueLonger(calls: seq<Call>, methods: nat, verdicts: nat -> Status)
    requires AllCallable(calls, methods) && calls != []
    ensures Due(calls[..|calls| - 1], methods, verdicts) <= Due(calls, methods, verdicts)
  {
  }

  lemma LastDue(calls: seq<Call>, methods: nat, verdicts: nat -> Status)
    requires AllCallable(calls, methods) && calls != [] && calls[|calls| - 1].Check?
    ensures var n := |calls| - 1;
            var due, id := Due(calls, methods, verdicts), Checks(calls[..n]);
            id < |due| && due[id] == DueFor(Held(calls, methods), id, calls[n], verdicts)
  {
    DueForEachCheck(calls[..|calls| - 1], methods, verdicts);
  }

  lemma LastIsRight(calls: seq<Call>, methods: nat, verdicts: nat -> Status, n: nat)
    requires AllCallable(calls, methods) && n == |calls| - 1 && calls[n].Check?
    ensures var id := Checks(calls[..n]);
            CallbackRight(calls, n, verdicts, DueFor(Held(calls, methods), id, calls[n], verdicts))
  {
    assert calls[..n + 1] == calls;
    ChecksRight(calls, methods, n, Checks(calls[..n]), verdicts);
  }

  /** The callback that is due for each check is the right one for it. */
  lemma {:induction false} DueIsRight(calls: seq<Call>, methods: nat, verdicts: nat -> Status, n: nat)
    requires AllCallable(calls, methods) && n < |calls| && calls[n].Check?
    ensures Checks(calls[..n]) < |Due(calls, methods, verdicts)|
    ensures CallbackRight(calls, n, verdicts, Due(calls, methods, verdicts)[Checks(calls[..n])])
    decreases |calls|
  {
    var last := |calls| - 1;
    var before := calls[..last];
    if n < last {
      assert before[..n] == calls[..n] && before[n] == calls[n];
      DueIsRight(before, methods, verdicts, n);
      DueLonger(calls, methods, verdicts);
      var c := Due(before, methods, verdicts)[Checks(calls[..n])];
      RightLonger(before, calls[last], n, verdicts, c);
      assert calls == before + [calls[last]];
    } else {
      LastDue(calls, methods, verdicts);
      LastIsRight(calls, methods, verdicts, n);
    }
  }

  lemma {:induction false} CheckOfId(calls: seq<Call>, id: nat) returns (n: nat)
    requires id < Checks(calls)
    ensures n < |calls| && calls[n].Check? && Checks(calls[..n]) == id
  {
    var last := |calls| - 1;
    if id < Checks(calls[..last]) {
      n := CheckOfId(calls[..last], id);
      assert calls[..last][..n] == calls[..n];
    } else {
      n := last;
    }
  }

  /** Every callback made belongs to a check of the run, and is right for it. */
  ghost predicate AllRight(calls: seq<Call>, verdicts: nat -> Status, made: seq<Callback>) {
    forall c :: c in made ==> exists n: nat :: CallbackRight(calls, n, verdicts, c)
  }

  lemma MadeAreRight(calls: seq<Call>, methods: nat, verdicts: nat -> Status, made: seq<Callback>)
    requires AllCallable(calls, methods)
    requires forall c :: c in made ==> c.id < |Due(calls, methods, verdicts)| && c == Due(calls, methods, verdicts)[c.id]
    ensures AllRight(calls, verdicts, made)
  {
    DueForEachCheck(calls, methods, verdicts);
    forall c | c in made
      ensures exists n: nat :: CallbackRight(calls, n, verdicts, c)
    {
      var n := CheckOfId(calls, c.id);
      DueIsRight(calls, methods, verdicts, n);
    }
  }

  /** Nobody is let in but by a method, by its own verdict. */
  lemma OkHasHandler(calls: seq<Call>, verdicts: nat -> Status, made: seq<Callback>)
    requires AllRight(calls, verdicts, made)
    ensures forall c :: c in made && c.status == Ok ==> c.handler.Some? && verdicts(c.id) == Ok
  {
    forall c | c in made && c.status == Ok
      ensures c.handler.Some? && verdicts(c.id) == Ok
    {
      var n: nat :| CallbackRight(calls, n, verdicts, c);
      var wants := calls[n].wants;
      FirstWillingIs(wants);
      if FirstWilling(wants).Some? {
        assert FirstToAnswer(wants, FirstWilling(wants).value);
      }
    }
  }

  lemma {:induction false} CalledSomewhere(made: seq<Callback>, id: nat)
    requires CountCalls(made, id) > 0
    ensures exists c :: c in made && c.id == id
  {
    if made[0].id == id {
      assert made[0] in made;
    } else {
      CalledSomewhere(made[1..], id);
      var c :| c in made[1..] && c.id == id;
      assert c in made;
    }
  }

  /** Every check of a run whose requests have all been called back has its right callback among those made. */
  lemma EachIsCalled(calls: seq<Call>, methods: nat, verdicts: nat -> Status, made: seq<Callback>, n: nat)
    requires AllCallable(calls, methods) && n < |calls| && calls[n].Check?
    requires forall id: nat :: id < Checks(calls) ==> CountCalls(made, id) == 1
    requires forall c :: c in made ==> c.id < |Due(calls, methods, verdicts)| && c == Due(calls, methods, verdicts)[c.id]
    ensures exists c :: c in made && CallbackRight(calls, n, verdicts, c)
  {
    DueIsRight(calls, methods, verdicts, n);
    ChecksGrow(calls, n);
    CalledSomewhere(made, Checks(calls[..n]));
  }

  /** A context after a run of calls. */
  ghost predicate Follows(ctx: Context, calls: seq<Call>, verdicts: nat -> Status)
    reads ctx
  {
    && AllCallable(calls, |ctx.methods|)
    && ctx.Valid() && ctx.data == Held(calls, |ctx.methods|) && ctx.pending == Waiting(calls, |ctx.methods|)
    && ctx.Keeps(Due(calls, |ctx.methods|, verdicts), verdicts)
  }

  lemma OneMoreCall(before: seq<Call>, call: Call, methods: nat, verdicts: nat -> Status)
    requires AllCallable(before, methods) && Callable(call, methods)
    ensures AllCallable(before + [call], methods)
    ensures Held(before + [call], methods) == HeldNext(Held(before, methods), call, methods)
    ensures !call.Check? ==> Due(before + [call], methods, verdicts) == Due(before, methods, verdicts)
    ensures !call.Check? && !call.Event? ==> Waiting(before + [call], methods) == Waiting(before, methods)
  {
    assert (before + [call])[..|before|] == before;
  }

  /** A password check in a run. */
  method TurnCheck(ctx: Context, call: Call, verdicts: nat -> Status, ghost before: seq<Call>) returns (result: Result)
    requires Follows(ctx, before, verdicts) && Callable(call, |ctx.methods|) && call.Check?
    modifies ctx
    ensures Follows(ctx, before + [call], verdicts)
    ensures result == Returns(before, call, |ctx.methods|, verdicts)
    ensures ctx.calls == old(ctx.calls) + result.made
  {
    assert (before + [call])[..|before|] == before;
    DueForEachCheck(before, |ctx.methods|, verdicts);
    var n := |ctx.calls|;
    ghost var due := Due(before, |ctx.methods|, verdicts);
    ghost var pending, calls, id := ctx.pending, ctx.calls, ctx.sent;
    ctx.Send(call.mapped, call.offers, call.random, call.wants);
    if Dispatched(ctx.data, call.mapped, call.wants) {
      OneMoreWaits(pending, calls, due, verdicts, Pending(id, FirstWilling(call.wants).value));
    } else {
      OneMoreCalled(pending, calls, due, verdicts, AtOnce(ctx.data, id, call.mapped, call.offers, call.wants));
    }
    result := Result(None, ctx.calls[n..]);
  }

  /** An event in a run. */
  method TurnEvent(ctx: Context, call: Call, verdicts: nat -> Status, ghost before: seq<Call>) returns (result: Result)
    requires Follows(ctx, before, verdicts) && call.Event?
    modifies ctx
    ensures Follows(ctx, before + [call], verdicts)
    ensures result == Returns(before, call, |ctx.methods|, verdicts)
    ensures ctx.calls == old(ctx.calls) + result.made
  {
    assert (before + [call])[..|before|] == before;
    OneMoreCall(before, call, |ctx.methods|, verdicts);
    var n := |ctx.calls|;
    ctx.FireAny(call.which, verdicts, Due(before, |ctx.methods|, verdicts));
    result := Result(None, ctx.calls[n..]);
  }

  /** One call of a run. */
  method Turn(ctx: Context, call: Call, verdicts: nat -> Status, ghost before: seq<Call>) returns (result: Result)
    requires Follows(ctx, before, verdicts) && Callable(call, |ctx.methods|)
    modifies ctx
    ensures Follows(ctx, before + [call], verdicts)
    ensures result == Returns(before, call, |ctx.methods|, verdicts)
    ensures ctx.calls == old(ctx.calls) + result.made
  {
    result := Result(None, []);
    OneMoreCall(before, call, |ctx.methods|, verdicts);
    match call {
      case Set(challenge, who) => ctx.SetChallenge(challenge, who);
      case Get(offers, random) =>
        var status, challenge := ctx.GetChallenge(offers, random);
        result := Result(Some((status, challenge)), []);
      case Check(_, _, _, _) => result := TurnCheck(ctx, call, verdicts, before);
      case Event(_) => result := TurnEvent(ctx, call, verdicts, before);
    }
  }

  /** The calls of a run, one after the other. */
  method MakeCalls(ctx: Context, calls: seq<Call>, verdicts: nat -> Status) returns (results: seq<Result>)
    requires AllCallable(calls, |ctx.methods|) && Follows(ctx, [], verdicts)
    modifies ctx
    ensures Follows(ctx, calls, verdicts)
    ensures |results| == |calls| && Answered(calls, |ctx.methods|, verdicts, results)
  {
    results := [];
    for i := 0 to |calls|
      invariant Follows(ctx, calls[..i], verdicts)
      invariant |results| == i && Answered(calls, |ctx.methods|, verdicts, results)
    {
      assert calls[..i + 1] == calls[..i] + [calls[i]];
      var result := Turn(ctx, calls[i], verdicts, calls[..i]);
      results := results + [result];
    }
    assert calls[..|calls|] == calls;
  }

  /** Every get of a run returns the right challenge or the right error. */
  ghost predicate AllGetsRight(calls: seq<Call>, results: seq<Result>)
    requires |calls| == |results|
  {
    forall j :: 0 <= j < |calls| && calls[j].Get? ==> results[j].got.Some? && GetRight(calls, j, results[j].got.value)
  }

  lemma AnsweredRight(calls: seq<Call>, methods: nat, verdicts: nat -> Status, results: seq<Result>)
    requires AllCallable(calls, methods) && |calls| == |results| && Answered(calls, methods, verdicts, results)
    ensures AllGetsRight(calls, results)
  {
    forall j | 0 <= j < |calls| && calls[j].Get?
      ensures results[j].got.Some? && GetRight(calls, j, results[j].got.value)
    {
      GetsRight(calls, methods, j);
    }
  }

  /**
   Any run of calls and events, and then the event loop until nothing waits: every get returns the challenge of
   the last set, or of the first call that could get one; every check is called back at once or by the event that
   fires it; in the end every check has had exactly one callback, the right one in terms of what the methods
   answered, and it says Ok only by the verdict of a method.
   */
  method Run(methods: seq<string>, calls: seq<Call>, verdicts: nat -> Status) returns (ctx: Context, results: seq<Result>)
    requires AllCallable(calls, |methods|)
    ensures |results| == |calls| && Answered(calls, |methods|, verdicts, results) && Agreeing(calls, results)
    ensures AllGetsRight(calls, results)
    ensures forall id: nat :: CountCalls(ctx.calls, id) == if id < Checks(calls) then 1 else 0
    ensures AllRight(calls, verdicts, ctx.calls)
    ensures forall n :: 0 <= n < |calls| && calls[n].Check? ==> exists c :: c in ctx.calls && CallbackRight(calls, n, verdicts, c)
    ensures forall c :: c in ctx.calls && c.status == Ok ==> c.handler.Some? && verdicts(c.id) == Ok
  {
    ctx := new Context(methods);
    results := MakeCalls(ctx, calls, verdicts);
    ctx.Drain(verdicts, Due(calls, |methods|, verdicts));
    DueForEachCheck(calls, |methods|, verdicts);
    AllAgree(calls, |methods|, verdicts, results);
    AnsweredRight(calls, |methods|, verdicts, results);
    MadeAreRight(calls, |methods|, verdicts, ctx.calls);
    OkHasHandler(calls, verdicts, ctx.calls);
    forall n | 0 <= n < |calls| && calls[n].Check?
      ensures exists c :: c in ctx.calls && CallbackRight(calls, n, verdicts, c)
    {
      EachIsCalled(calls, |methods|, verdicts, ctx.calls, n);
    }
  }

  /**
   What one more call comes to: a get returns the challenge, a check that goes to no method is called back at once,
   and an event makes the callback of the request it fires.
   */
  function Returns(before: seq<Call>, call: Call, methods: nat, verdicts: nat -> Status): Result
    requires AllCallable(before, methods) && Callable(call, methods)
  {
    var held := Held(before, methods);
    match call
    case Set(_, _) => Result(None, [])
    case Get(offers, random) =>
      Result(Some(if held != [] then (Ok, held) else (AcquireStatus(offers), Acquired(offers, random))), [])
    case Check(mapped, offers, random, wants) =>
      var next := HeldNext(held, call, methods);
      Result(None, if Dispatched(next, mapped, wants) then [] else [AtOnce(next, Checks(before), mapped, offers, wants)])
    case Event(which) => Result(None, FiredAt(Waiting(before, methods), which, verdicts))
  }
}
