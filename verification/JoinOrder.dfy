/** Every run of the domain join, whatever the replies, keeps the order that JoinTrace asks for. */
module JoinOrder {
  import opened Wrappers
  import opened ReplicationPull
  import opened JoinTrace
  import opened JoinOutcome

  predicate Known(w: Wait) {
    && (w.ForConnect? ==> 1 <= w.pipe <= 3)
    && (w.ForBind? ==> 1 <= w.pipe <= 2)
    && w != ForNothing
  }

  /** Nothing has failed, and the partitions stand where the replies for them left them. */
  ghost predicate Calm(s: Stage) {
    && Orderly(s.trace) && !HasFailed(s.trace) && s.trace != []
    && forall nc :: (PartOf(s.knows, nc).mark, PartOf(s.knows, nc).invocationId) == Position(s.trace, nc)
  }

  ghost predicate NoRefs(t: Trace) {
    forall nc :: !RefsSent(t, nc)
  }

  /** Nothing has been pulled. */
  ghost predicate Fresh(t: Trace) {
    NoRefs(t) && !Finished(t, Schema) && !Finished(t, Config) && !Finished(t, Domain)
  }

  ghost predicate Bound(s: Stage) {
    Level(s.trace) == Some(if s.knows.v8 then 8 else 5)
  }

  ghost predicate HasGuid(s: Stage) {
    Added(s.trace) == Some(s.knows.guid)
  }

  /** Which of the two answers that later steps rely on have arrived. */
  ghost predicate Early(s: Stage, pipe: nat, bound: bool) {
    && Fresh(s.trace)
    && (if pipe == 1 then Added(s.trace) == None else HasGuid(s))
    && (if bound then Bound(s) else Level(s.trace) == None)
  }

  ghost predicate MayPull(s: Stage, nc: Nc) {
    && Bound(s) && HasGuid(s) && NoRefs(s.trace) && PartitionsPulled(s.trace, nc)
    && !Finished(s.trace, nc) && (nc != Domain ==> !Finished(s.trace, Domain)) && (nc == Schema ==> !Finished(s.trace, Config))
  }

  ghost predicate AllPulled(s: Stage) {
    HasGuid(s) && PartitionsPulled(s.trace, Domain) && Finished(s.trace, Domain)
  }

  /** What is known when the given reply is awaited. */
  ghost predicate Ready(s: Stage, w: Wait) {
    match w
    case ForCldap => Early(s, 1, false)
    case ForConnect(pipe) => Early(s, pipe, pipe == 3)
    case ForBind(pipe) => Early(s, pipe, false)
    case ForAddEntry => Early(s, 1, false)
    case ForChanges(nc) => MayPull(s, nc) && (nc == Domain ==> s.flags == DC_FLAGS)
    case ForRefs(nc) =>
      && AllPulled(s) && RefsSent(s.trace, Schema)
      && (RefsSent(s.trace, Config) <==> nc != Schema) && (RefsSent(s.trace, Domain) <==> nc == Domain)
    case ForNothing => true
  }

  ghost predicate Inv(s: Stage) {
    && Orderly(s.trace)
    && (s.outcome.Waits? ==>
          && Known(s.outcome.next) && Calm(s) && Ready(s, s.outcome.next)
          && Last(s.trace) == Some(Asking(s.outcome.next, s.knows, s.flags)))
    && (s.outcome.Fails? ==> Last(s.trace) == Some(Event.Failed))
  }

  lemma SaysNothing(s: Stage)
    ensures Say(s, []) == s
  {
    assert s.trace + [] == s.trace;
  }

  lemma SaysOneByOne(s: Stage, e: Event, more: Trace)
    ensures Say(Say(s, [e]), more) == Say(s, [e] + more)
  {
    assert s.trace + [e] + more == s.trace + ([e] + more);
  }

  lemma StaysCalm(s: Stage, e: Event)
    requires Calm(s) && Allowed(s.trace, e) && !e.GotChanges? && !e.Failed?
    ensures Calm(Say(s, [e]))
  {
    OneMore(s.trace, e);
  }

  // ----- the ways in which a reply's handling ends -----

  lemma EnterFails(s: Stage, code: nat)
    requires Calm(s)
    ensures Inv(Enter(s, Fails(code)))
  {
    OneMore(s.trace, Event.Failed);
  }

  lemma EnterAborts(s: Stage)
    requires Calm(s)
    ensures Inv(Enter(s, Aborts))
  {
    assert s.trace + [] == s.trace;
  }

  lemma EnterConnect(s: Stage, pipe: nat, a: Answer)
    requires Calm(s) && 1 <= pipe <= 3 && Early(s, pipe, pipe == 3) && Follows(Last(s.trace), SentConnect(pipe))
    ensures Inv(Enter(s, Connecting(pipe, a)))
  {
    var o := Connecting(pipe, a);
    if o.Fails? {
      EnterFails(s, o.code);
    } else {
      OneMore(s.trace, SentConnect(pipe));
      StaysCalm(s, SentConnect(pipe));
    }
  }

  lemma EnterBind(s: Stage, pipe: nat)
    requires Calm(s) && 1 <= pipe <= 2 && Early(s, pipe, false) && Last(s.trace) == Some(SentConnect(pipe))
    ensures Inv(Enter(s, Waits(ForBind(pipe))))
  {
    OneMore(s.trace, SentBind(pipe));
    StaysCalm(s, SentBind(pipe));
  }

  lemma EnterAddEntry(s: Stage)
    requires Calm(s) && Early(s, 1, false) && Follows(Last(s.trace), SentAddEntry)
    ensures Inv(Enter(s, Waits(ForAddEntry)))
  {
    OneMore(s.trace, SentAddEntry);
    StaysCalm(s, SentAddEntry);
  }

  lemma EnterChanges(s: Stage, nc: Nc)
    requires Calm(s) && MayPull(s, nc) && (nc == Domain ==> s.flags == DC_FLAGS)
    requires Follows(Last(s.trace), Asking(ForChanges(nc), s.knows, s.flags))
    ensures Inv(Enter(s, Waits(ForChanges(nc))))
  {
    var e := Asking(ForChanges(nc), s.knows, s.flags);
    OneMore(s.trace, e);
    assert Allowed(s.trace, e);
    StaysCalm(s, e);
  }

  lemma EnterRefs(s: Stage, nc: Nc)
    requires Calm(s) && AllPulled(s)
    requires (RefsSent(s.trace, Schema) <==> nc != Schema) && (RefsSent(s.trace, Config) <==> nc == Domain) && !RefsSent(s.trace, Domain)
    requires Follows(Last(s.trace), SentUpdateRefs(nc, s.knows.guid))
    ensures Inv(Enter(s, Waits(ForRefs(nc))))
  {
    var e := SentUpdateRefs(nc, s.knows.guid);
    OneMore(s.trace, e);
    assert Allowed(s.trace, e);
    StaysCalm(s, e);
  }

  // ----- one reply of each kind -----

  ghost predicate AfterLdap1(s: Stage, step: nat) {
    Calm(s) && Early(s, 1, false) && Last(s.trace) == Some(if step == 0 then SentCldap else Ldap1(step - 1))
  }

  lemma AnotherLdap1(s: Stage, step: nat)
    requires step < 14 && AfterLdap1(s, step)
    ensures AfterLdap1(Say(s, [Ldap1(step)]), step + 1)
  {
    OneMore(s.trace, Ldap1(step));
    StaysCalm(s, Ldap1(step));
  }

  lemma {:induction false} Ldap1Keeps(s: Stage, ldap: seq<Status>, step: nat, a: Answer)
    requires step <= 14 && AfterLdap1(s, step)
    ensures Inv(Enter(Say(s, Ldap1Tried(ldap, step)), Ldap1Outcome(ldap, step, Connecting(1, a))))
    decreases 14 - step
  {
    if step == 14 {
      SaysNothing(s);
      EnterConnect(s, 1, a);
    } else {
      var next := Say(s, [Ldap1(step)]);
      AnotherLdap1(s, step);
      if StepStatus(ldap, step).Bad? {
        EnterFails(next, StepStatus(ldap, step).code);
        assert [Ldap1(step)] + [] == [Ldap1(step)];
      } else {
        Ldap1Keeps(next, ldap, step + 1, a);
        SaysOneByOne(s, Ldap1(step), Ldap1Tried(ldap, step + 1));
      }
    }
  }

  lemma StepUnheard(s: Stage, a: Answer)
    requires Inv(s) && s.outcome.Waits? && Heard(s.outcome.next, a) == Tried(s.outcome.next, s.flags, a) == []
    requires Learn(s.knows, s.outcome.next, a) == s.knows && NextFlags(s.outcome.next, s.flags, a) == s.flags
    ensures Step(s, a) == Enter(s, Next(s.outcome.next, s.flags, a))
  {
    SaysNothing(s);
  }

  /** A call or an operation that failed ends the run, and nothing is recorded but the failure. */
  lemma StepRefused(s: Stage, a: Answer)
    requires Inv(s) && s.outcome.Waits? && !Accepted(s.outcome.next, a)
    ensures Inv(Step(s, a)) && Step(s, a).outcome.Fails? && Step(s, a).trace == s.trace + [Event.Failed]
  {
    StepUnheard(s, a);
    EnterFails(s, Next(s.outcome.next, s.flags, a).code);
  }

  lemma StepCldap(s: Stage, a: Answer)
    requires Inv(s) && s.outcome == Waits(ForCldap) && Accepted(ForCldap, a)
    ensures Inv(Step(s, a))
  {
    SaysNothing(s);
    Ldap1Keeps(s, a.ldap, 0, a);
  }

  lemma StepConnect(s: Stage, a: Answer)
    requires Inv(s) && s.outcome.Waits? && s.outcome.next.ForConnect? && Accepted(s.outcome.next, a)
    ensures Inv(Step(s, a))
  {
    StepUnheard(s, a);
    var pipe := s.outcome.next.pipe;
    if pipe == 3 {
      EnterChanges(s, Schema);
    } else {
      EnterBind(s, pipe);
    }
  }

  /** The run after a bind reply has been taken in. */
  lemma BoundKeeps(s: Stage, pipe: nat, a: Answer)
    requires Inv(s) && s.outcome == Waits(ForBind(pipe)) && Accepted(ForBind(pipe), a)
    ensures var t := Say(s, [GotBind(pipe, Offered(a.bindInfo))]).(knows := Learn(s.knows, ForBind(pipe), a));
            && Calm(t) && Last(t.trace) == Some(GotBind(pipe, Offered(a.bindInfo)))
            && (pipe == 1 || pipe == 2) && (if pipe == 1 then Early(t, 1, false) else Early(t, 3, true))
  {
    var e := GotBind(pipe, Offered(a.bindInfo));
    OneMore(s.trace, e);
    StaysCalm(s, e);
  }

  lemma StepBind(s: Stage, a: Answer)
    requires Inv(s) && s.outcome.Waits? && s.outcome.next.ForBind? && Accepted(s.outcome.next, a)
    ensures Inv(Step(s, a))
  {
    var pipe := s.outcome.next.pipe;
    BoundKeeps(s, pipe, a);
    var told := Say(s, [GotBind(pipe, Offered(a.bindInfo))]).(knows := Learn(s.knows, ForBind(pipe), a));
    SaysNothing(told);
    if pipe == 1 {
      EnterAddEntry(told);
    } else {
      EnterConnect(told, 3, a);
    }
  }

  /** The run after the reply to AddEntry has been taken in. */
  lemma AddedKeeps(s: Stage, guid: Guid)
    requires Inv(s) && s.outcome == Waits(ForAddEntry)
    ensures var t := Say(s, [GotAddEntry(guid)]).(knows := s.knows.(guid := guid));
            Calm(t) && Last(t.trace) == Some(GotAddEntry(guid)) && Early(t, 2, false)
  {
    OneMore(s.trace, GotAddEntry(guid));
    StaysCalm(s, GotAddEntry(guid));
  }

  lemma StepNotAdded(s: Stage, a: Answer)
    requires Inv(s) && s.outcome == Waits(ForAddEntry) && Accepted(ForAddEntry, a) && AddedObject(a.addEntry).0.None?
    ensures Inv(Step(s, a))
  {
    var status := AddedObject(a.addEntry).1;
    StepUnheard(s, a);
    if status.Bad? {
      EnterFails(s, status.code);
    } else {
      EnterAborts(s);
    }
  }

  lemma StepAdded(s: Stage, a: Answer, guid: Guid)
    requires Inv(s) && s.outcome == Waits(ForAddEntry) && Accepted(ForAddEntry, a) && AddedObject(a.addEntry).0 == Some(guid)
    ensures Inv(Step(s, a))
  {
    AddedKeeps(s, guid);
    var told := Say(s, [GotAddEntry(guid)]).(knows := s.knows.(guid := guid));
    SaysNothing(told);
    EnterConnect(told, 2, a);
  }

  lemma StepAddEntry(s: Stage, a: Answer)
    requires Inv(s) && s.outcome == Waits(ForAddEntry) && Accepted(ForAddEntry, a)
    ensures Inv(Step(s, a))
  {
    if AddedObject(a.addEntry).0.None? {
      StepNotAdded(s, a);
    } else {
      StepAdded(s, a, AddedObject(a.addEntry).0.value);
    }
  }

  /** The run after a page has been taken in. */
  function Told(s: Stage, nc: Nc, a: Answer): Stage {
    Say(s, [GotChanges(nc, a.mark, a.invocationId)]).(knows := Learn(s.knows, ForChanges(nc), a))
  }

  lemma PageKeeps(s: Stage, nc: Nc, a: Answer)
    requires Inv(s) && s.outcome == Waits(ForChanges(nc)) && Accepted(ForChanges(nc), a) && Understands(a.form)
    ensures var t := Told(s, nc, a);
            && Calm(t) && Last(t.trace) == Some(GotChanges(nc, a.mark, a.invocationId))
            && Bound(t) && HasGuid(t) && NoRefs(t.trace) && PartitionsPulled(t.trace, nc)
            && (Finished(t.trace, nc) <==> !MorePages(a))
            && (nc != Domain ==> !Finished(t.trace, Domain)) && (nc == Schema ==> !Finished(t.trace, Config))
            && t.flags == s.flags && (nc == Domain ==> t.flags == DC_FLAGS)
  {
    OneMore(s.trace, GotChanges(nc, a.mark, a.invocationId));
  }

  ghost predicate BeforeDomain(s: Stage) {
    Calm(s) && MayPull(s, Domain)
  }

  lemma Ldap2Step(s: Stage, step: nat)
    requires BeforeDomain(s) && Follows(Last(s.trace), Ldap2(step))
    ensures BeforeDomain(Say(s, [Ldap2(step)])) && Last(Say(s, [Ldap2(step)]).trace) == Some(Ldap2(step))
  {
    OneMore(s.trace, Ldap2(step));
    StaysCalm(s, Ldap2(step));
  }

  /** Where the LDAP steps end: in a failure, or with the first request for the domain partition. */
  lemma Ldap2Ends(s: Stage, o: Outcome)
    requires BeforeDomain(s)
    requires o.Fails? || (o == Waits(ForChanges(Domain)) && s.flags == DC_FLAGS && Last(s.trace) == Some(Ldap2(2)))
    ensures Inv(Enter(s, o))
  {
    if o.Fails? {
      EnterFails(s, o.code);
    } else {
      EnterChanges(s, Domain);
    }
  }

  /** Setting the flags, or finding them right, and moving the account. */
  lemma Ldap2Continues(s: Stage, ldap: seq<Status>)
    requires BeforeDomain(s) && Last(s.trace) == Some(Ldap2(0)) && StepStatus(ldap, 0).Good?
    ensures var t := Say(s, Ldap2Tried(ldap, s.flags)[1..]);
            BeforeDomain(t) && (Ldap2Outcome(ldap, s.flags).Waits? ==> Last(t.trace) == Some(Ldap2(2)))
  {
    var more := Ldap2Tried(ldap, s.flags)[1..];
    if s.flags == DC_FLAGS {
      assert more == [Ldap2(2)];
      Ldap2Step(s, 2);
    } else {
      Ldap2Step(s, 1);
      if StepStatus(ldap, 1).Bad? {
        assert more == [Ldap2(1)];
      } else {
        assert more == [Ldap2(1)] + [Ldap2(2)];
        Ldap2Step(Say(s, [Ldap2(1)]), 2);
        SaysOneByOne(s, Ldap2(1), [Ldap2(2)]);
      }
    }
  }

  lemma Ldap2Keeps(s: Stage, ldap: seq<Status>, flags': nat)
    requires BeforeDomain(s) && Follows(Last(s.trace), Ldap2(0))
    requires Ldap2Outcome(ldap, s.flags).Waits? ==> flags' == DC_FLAGS
    ensures Inv(Enter(Say(s, Ldap2Tried(ldap, s.flags)).(flags := flags'), Ldap2Outcome(ldap, s.flags)))
  {
    var tried := Ldap2Tried(ldap, s.flags);
    var s0 := Say(s, [Ldap2(0)]);
    Ldap2Step(s, 0);
    assert tried == [Ldap2(0)] + tried[1..];
    SaysOneByOne(s, Ldap2(0), tried[1..]);
    var t := Say(s, tried);
    if StepStatus(ldap, 0).Good? {
      Ldap2Continues(s0, ldap);
    } else {
      assert tried[1..] == [];
      SaysNothing(s0);
    }
    assert BeforeDomain(t.(flags := flags'));
    Ldap2Ends(t.(flags := flags'), Ldap2Outcome(ldap, s.flags));
  }

  lemma StepLastOfConfig(s: Stage, a: Answer)
    requires Inv(s) && s.outcome == Waits(ForChanges(Config)) && Accepted(ForChanges(Config), a) && Understands(a.form) && !MorePages(a)
    ensures Inv(Step(s, a))
  {
    PageKeeps(s, Config, a);
    Ldap2Keeps(Told(s, Config, a), a.ldap, NextFlags(ForChanges(Config), s.flags, a));
  }

  lemma StepOtherPage(s: Stage, a: Answer, nc: Nc)
    requires Inv(s) && s.outcome == Waits(ForChanges(nc)) && Accepted(ForChanges(nc), a) && Understands(a.form)
    requires nc != Config || MorePages(a)
    ensures Inv(Step(s, a))
  {
    PageKeeps(s, nc, a);
    var told := Told(s, nc, a);
    SaysNothing(told);
    assert Step(s, a) == Enter(told, Next(ForChanges(nc), s.flags, a));
    if MorePages(a) {
      EnterChanges(told, nc);
    } else if nc == Schema {
      EnterChanges(told, Config);
    } else {
      EnterRefs(told, Schema);
    }
  }

  lemma StepChanges(s: Stage, a: Answer, nc: Nc)
    requires Inv(s) && s.outcome == Waits(ForChanges(nc)) && Accepted(ForChanges(nc), a)
    ensures Inv(Step(s, a))
  {
    if !Understands(a.form) {
      StepUnheard(s, a);
      EnterFails(s, INVALID_NETWORK_RESPONSE);
    } else if nc == Config && !MorePages(a) {
      StepLastOfConfig(s, a);
    } else {
      StepOtherPage(s, a, nc);
    }
  }

  lemma StepRefs(s: Stage, a: Answer)
    requires Inv(s) && s.outcome.Waits? && s.outcome.next.ForRefs? && Accepted(s.outcome.next, a)
    ensures Inv(Step(s, a))
  {
    StepUnheard(s, a);
    match s.outcome.next.nc {
      case Schema => EnterRefs(s, Config);
      case Config => EnterRefs(s, Domain);
      case Domain => EnterFails(s, NOT_IMPLEMENTED);
    }
  }

  lemma StepKeepsInv(s: Stage, a: Answer)
    requires Inv(s)
    ensures Inv(Step(s, a))
  {
    if s.outcome.Waits? {
      var w := s.outcome.next;
      if !Accepted(w, a) {
        StepRefused(s, a);
      } else {
        match w {
          case ForCldap => StepCldap(s, a);
          case ForConnect(_) => StepConnect(s, a);
          case ForBind(_) => StepBind(s, a);
          case ForAddEntry => StepAddEntry(s, a);
          case ForChanges(nc) => StepChanges(s, a, nc);
          case ForRefs(_) => StepRefs(s, a);
        }
      }
    }
  }

  /** Every run, whatever the replies, is orderly; while it goes on, the last event is the request that its knowledge determines. */
  lemma {:induction false} EveryRunIsOrderly(flags: nat, answers: seq<Answer>)
    ensures Inv(Play(flags, answers)) && Orderly(Play(flags, answers).trace)
  {
    if answers == [] {
      OneMore([], SentCldap);
      assert [] + [SentCldap] == Start(flags).trace;
    } else {
      EveryRunIsOrderly(flags, answers[..|answers| - 1]);
      StepKeepsInv(Play(flags, answers[..|answers| - 1]), answers[|answers| - 1]);
    }
  }
}
