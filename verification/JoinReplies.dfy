/** What a run of the domain join amounts to in terms of the replies it was given. */
module JoinReplies {
  import opened Wrappers
  import opened ReplicationPull
  import opened JoinTrace
  import opened JoinOutcome
  import opened JoinOrder

  /** How many replies have come, pages but the last of a partition not counted, when the given one is awaited. */
  function Rank(w: Wait): nat {
    match w
    case ForCldap => 0
    case ForConnect(pipe) => if pipe == 1 then 1 else if pipe == 2 then 4 else 6
    case ForBind(pipe) => if pipe == 1 then 2 else 5
    case ForAddEntry => 3
    case ForChanges(nc) => (match nc case Schema => 7 case Config => 8 case Domain => 9)
    case ForRefs(nc) => (match nc case Schema => 10 case Config => 11 case Domain => 12)
    case ForNothing => 13
  }

  lemma {:induction false} Ldap1Ends(ldap: seq<Status>, step: nat, end: Outcome)
    ensures Ldap1Outcome(ldap, step, end) == end || Ldap1Outcome(ldap, step, end).Fails?
    decreases 14 - step
  {
    if step < 14 {
      Ldap1Ends(ldap, step + 1, end);
    }
  }

  lemma {:induction false} Ldap1AllGood(ldap: seq<Status>, step: nat, end: Outcome)
    requires !end.Fails?
    ensures Ldap1Outcome(ldap, step, end) == end <==> forall i :: step <= i < 14 ==> StepStatus(ldap, i).Good?
    decreases 14 - step
  {
    if step < 14 {
      Ldap1AllGood(ldap, step + 1, end);
    }
  }

  /** Whatever the reply, a run that goes on moves on by one, or stays at a partition with more pages. */
  lemma NextRank(w: Wait, flags: nat, a: Answer)
    requires Known(w)
    ensures var o := Next(w, flags, a);
            o.Waits? ==> Known(o.next) && Rank(o.next) == if w.ForChanges? && MorePages(a) then Rank(w) else Rank(w) + 1
  {
    Ldap1Ends(a.ldap, 0, Connecting(1, a));
  }

  /** Once a run has ended, further replies change nothing. */
  lemma {:induction false} EndedStays(flags: nat, answers: seq<Answer>, k: nat)
    requires k <= |answers| && !Going(Play(flags, answers[..k]).outcome)
    ensures Play(flags, answers) == Play(flags, answers[..k])
    decreases |answers|
  {
    if k == |answers| {
      assert answers[..k] == answers;
    } else {
      var before := answers[..|answers| - 1];
      assert before[..k] == answers[..k];
      EndedStays(flags, before, k);
    }
  }

  // ----- the server that refuses nothing -----

  ghost predicate Willing(a: Answer) {
    && a.transport.Good? && a.result.Good? && a.binding.Good? && Understands(a.form)
    && AddedObject(a.addEntry).0.Some?
    && forall i: nat :: StepStatus(a.ldap, i).Good?
  }

  lemma WillingStep(w: Wait, flags: nat, a: Answer)
    requires Known(w) && Willing(a)
    ensures var o := Next(w, flags, a); if w == ForRefs(Domain) then o == Fails(NOT_IMPLEMENTED) else o.Waits?
  {
    Ldap1AllGood(a.ldap, 0, Connecting(1, a));
  }

  predicate IsExtra(o: Outcome, a: Answer) {
    Going(o) && o.next.ForChanges? && MorePages(a)
  }

  /** Pages that are not the last of their partition, among the replies that reach the run while it pulls. */
  ghost function ExtraPages(flags: nat, answers: seq<Answer>): nat {
    if answers == [] then 0
    else
      var before := Play(flags, answers[..|answers| - 1]).outcome;
      ExtraPages(flags, answers[..|answers| - 1]) + if IsExtra(before, answers[|answers| - 1]) then 1 else 0
  }

  ghost predicate AllWilling(answers: seq<Answer>) {
    forall i :: 0 <= i < |answers| ==> Willing(answers[i])
  }

  lemma WillingBefore(answers: seq<Answer>)
    requires AllWilling(answers) && answers != []
    ensures AllWilling(answers[..|answers| - 1]) && Willing(answers[|answers| - 1])
  {
  }

  /** Where a run that nothing refuses is after so many replies: it awaits the next one, or has ended after the thirteenth. */
  predicate IsAt(o: Outcome, replies: int) {
    if replies < 13 then o.Waits? && Known(o.next) && Rank(o.next) == replies else o == Fails(NOT_IMPLEMENTED)
  }

  lemma StepParts(s: Stage, a: Answer)
    requires Going(s.outcome)
    ensures var w, t := s.outcome.next, Step(s, a);
            && t.knows == Learn(s.knows, w, a) && t.outcome == Next(w, s.flags, a) && t.flags == NextFlags(w, s.flags, a)
            && t.trace == s.trace + Heard(w, a) + Tried(w, s.flags, a) + Closing(t.outcome, t.knows, t.flags)
  {
  }

  lemma WillingMove(s: Stage, a: Answer, replies: int)
    requires IsAt(s.outcome, replies) && Willing(a)
    ensures IsAt(Step(s, a).outcome, if IsExtra(s.outcome, a) then replies else replies + 1)
  {
    if Going(s.outcome) {
      StepParts(s, a);
      WillingStep(s.outcome.next, s.flags, a);
      NextRank(s.outcome.next, s.flags, a);
    }
  }

  /**
   Against a server that refuses nothing a run takes thirteen replies and one for every further page, and then
   always ends with NOT_IMPLEMENTED: it cannot end earlier, later, or otherwise.
   */
  lemma {:induction false} WillingRun(flags: nat, answers: seq<Answer>)
    requires AllWilling(answers)
    ensures IsAt(Play(flags, answers).outcome, |answers| - ExtraPages(flags, answers))
  {
    if answers != [] {
      var n := |answers| - 1;
      WillingBefore(answers);
      WillingRun(flags, answers[..n]);
      WillingMove(Play(flags, answers[..n]), answers[n], n - ExtraPages(flags, answers[..n]));
    }
  }

  // ----- which reply is which -----

  /** The fourth reply is the one to AddEntry, the sixth the one to the second bind, and the run keeps what they carry. */
  ghost predicate Placed(s: Stage, answers: seq<Answer>) {
    s.outcome.Waits? ==>
      var r := Rank(s.outcome.next);
      && Known(s.outcome.next) && (if r < 7 then |answers| == r else |answers| >= 7)
      && (r > 3 ==> AddedObject(answers[3].addEntry).0 == Some(s.knows.guid))
      && (r > 5 ==> s.knows.v8 == Offered(answers[5].bindInfo))
  }

  lemma PlacedStep(s: Stage, answers: seq<Answer>, a: Answer)
    requires s.outcome.Waits? && Placed(s, answers)
    ensures Placed(Step(s, a), answers + [a])
  {
    var w, longer := s.outcome.next, answers + [a];
    NextRank(w, s.flags, a);
    if |answers| > 3 {
      assert longer[3] == answers[3];
    }
    if |answers| > 5 {
      assert longer[5] == answers[5];
    }
  }

  lemma {:induction false} RepliesPlaced(flags: nat, answers: seq<Answer>)
    ensures Placed(Play(flags, answers), answers)
  {
    if answers != [] {
      var n := |answers| - 1;
      RepliesPlaced(flags, answers[..n]);
      assert answers == answers[..n] + [answers[n]];
      var s := Play(flags, answers[..n]);
      if s.outcome.Waits? {
        PlacedStep(s, answers[..n], answers[n]);
      }
    }
  }

  // ----- the one way to end without an error -----

  /** All fourteen LDAP steps of the first connection worked. */
  predicate LdapWorked(a: Answer) {
    a.transport.Good? && forall i :: 0 <= i < 14 ==> StepStatus(a.ldap, i).Good?
  }

  predicate LeadToAddEntry(a0: Answer, a1: Answer, a2: Answer) {
    && LdapWorked(a0) && a0.binding.Good? && a1.transport.Good?
    && a2.transport.Good? && a2.result.Good?
  }

  /** The first three replies let the run get to AddEntry. */
  predicate ReachesAddEntry(answers: seq<Answer>)
    requires |answers| >= 3
  {
    LeadToAddEntry(answers[0], answers[1], answers[2])
  }

  /** The reply to AddEntry carries no single object, and yet reports success everywhere. */
  predicate HollowSuccess(a: Answer) {
    && a.transport.Good? && a.result.Good?
    && match a.addEntry
       case Ctr3(count, _, errorLevel, error) => count != 1 && errorLevel == 1 && error == Some(Good)
       case Ctr2(count, _, status) => count != 1 && status == Good
       case OtherOut => false
  }

  /** The run after k replies, seen from the one before. */
  lemma PlayOneMore(flags: nat, answers: seq<Answer>, k: nat)
    requires 0 < k <= |answers|
    ensures Play(flags, answers[..k]) == Step(Play(flags, answers[..k - 1]), answers[k - 1])
  {
    assert answers[..k][..k - 1] == answers[..k - 1];
  }

  lemma FirstReply(s: Stage, a: Answer)
    requires s.outcome == Waits(ForCldap)
    ensures if LdapWorked(a) && a.binding.Good? then Step(s, a).outcome == Waits(ForConnect(1)) else Step(s, a).outcome.Fails?
  {
    StepParts(s, a);
    var end := Connecting(1, a);
    Ldap1Ends(a.ldap, 0, end);
    if a.binding.Good? {
      Ldap1AllGood(a.ldap, 0, end);
    }
  }

  lemma {:induction false} Ldap1FirstBad(ldap: seq<Status>, step: nat, k: nat, end: Outcome)
    requires step <= k < 14 && StepStatus(ldap, k).Bad? && forall i :: step <= i < k ==> StepStatus(ldap, i).Good?
    ensures Ldap1Outcome(ldap, step, end) == Fails(StepStatus(ldap, k).code)
    decreases k - step
  {
    if step < k {
      Ldap1FirstBad(ldap, step + 1, k, end);
    }
  }

  lemma SecondAndThirdReply(s: Stage, a: Answer)
    requires s.outcome == Waits(ForConnect(1)) || s.outcome == Waits(ForBind(1))
    ensures Step(s, a).outcome ==
            if !Accepted(s.outcome.next, a) then Fails(if a.transport.Bad? then a.transport.code else a.result.code)
            else if s.outcome.next.ForBind? then Waits(ForAddEntry) else Waits(ForBind(1))
  {
    StepParts(s, a);
  }

  lemma ThreeSteps(s0: Stage, s1: Stage, s2: Stage, s3: Stage, a0: Answer, a1: Answer, a2: Answer)
    requires s0.outcome == Waits(ForCldap) && s1 == Step(s0, a0) && s2 == Step(s1, a1) && s3 == Step(s2, a2)
    ensures s3.outcome == Waits(ForAddEntry) <==> LeadToAddEntry(a0, a1, a2)
  {
    FirstReply(s0, a0);
    if Going(s1.outcome) {
      SecondAndThirdReply(s1, a1);
      if Going(s2.outcome) {
        SecondAndThirdReply(s2, a2);
      }
    }
  }

  lemma FirstThreeReplies(flags: nat, answers: seq<Answer>)
    requires |answers| >= 3
    ensures Play(flags, answers[..3]).outcome == Waits(ForAddEntry) <==> ReachesAddEntry(answers)
  {
    PlayOneMore(flags, answers, 1);
    PlayOneMore(flags, answers, 2);
    PlayOneMore(flags, answers, 3);
    ThreeSteps(Play(flags, answers[..0]), Play(flags, answers[..1]), Play(flags, answers[..2]), Play(flags, answers[..3]),
               answers[0], answers[1], answers[2]);
  }

  lemma AbortStep(s: Stage, before: seq<Answer>, a: Answer)
    requires Placed(s, before) && s.outcome != Aborts && Step(s, a).outcome.Aborts?
    ensures s.outcome == Waits(ForAddEntry) && |before| == 3 && HollowSuccess(a)
  {
    StepParts(s, a);
    Ldap1Ends(a.ldap, 0, Connecting(1, a));
  }

  lemma {:induction false} AbortNeedsAddEntry(flags: nat, answers: seq<Answer>)
    requires Play(flags, answers).outcome.Aborts?
    ensures |answers| > 3 && Play(flags, answers[..3]).outcome == Waits(ForAddEntry) && HollowSuccess(answers[3])
  {
    var n := |answers| - 1;
    var before := answers[..n];
    var s := Play(flags, before);
    if s.outcome.Aborts? {
      AbortNeedsAddEntry(flags, before);
      assert before[..3] == answers[..3];
    } else {
      RepliesPlaced(flags, before);
      AbortStep(s, before, answers[n]);
      assert before == answers[..3];
    }
  }

  /** A run that ends does so in error, if and only if it did not get to AddEntry or the reply to that was no hollow success. */
  lemma AbortsExactly(flags: nat, answers: seq<Answer>)
    ensures Play(flags, answers).outcome.Aborts? <==> |answers| > 3 && ReachesAddEntry(answers) && HollowSuccess(answers[3])
  {
    if |answers| > 3 {
      FirstThreeReplies(flags, answers);
      if ReachesAddEntry(answers) && HollowSuccess(answers[3]) {
        assert answers[..4][..3] == answers[..3];
        EndedStays(flags, answers, 4);
      }
    }
    if Play(flags, answers).outcome.Aborts? {
      AbortNeedsAddEntry(flags, answers);
    }
  }

  const QUIET: Answer := Answer(Good, Good, [], Good, NoInfo, Ctr2(1, 7, Good), AtLevel6, 0, 0, Mark(0, 0), 0, [])

  /** A server whose AddEntry succeeds without an object makes the run abort. */
  lemma AbortingRun()
    ensures Play(0, [QUIET, QUIET, QUIET, QUIET.(addEntry := Ctr2(0, 0, Good))]).outcome == Aborts
  {
    AbortsExactly(0, [QUIET, QUIET, QUIET, QUIET.(addEntry := Ctr2(0, 0, Good))]);
  }

  // ----- every request, and the replies it rests on -----

  predicate Sends(e: Event) {
    e.SentGetChanges? || e.SentUpdateRefs?
  }

  lemma {:induction false} Ldap1TriedIs(ldap: seq<Status>, step: nat)
    ensures forall e :: e in Ldap1Tried(ldap, step) ==> e.Ldap1?
    decreases 14 - step
  {
    if step < 14 {
      Ldap1TriedIs(ldap, step + 1);
    }
  }

  lemma NoAddEntryYet(s: Stage, a: Answer)
    requires s.outcome == Waits(ForCldap) && s.trace == [SentCldap] && Step(s, a).outcome.Fails?
    ensures SentAddEntry !in Step(s, a).trace
  {
    StepParts(s, a);
    Ldap1TriedIs(a.ldap, 0);
  }

  /** AddEntry is only ever sent when all the LDAP steps have worked. */
  lemma AddEntryNeedsLdap(flags: nat, answers: seq<Answer>)
    requires SentAddEntry in Play(flags, answers).trace
    ensures answers != [] && LdapWorked(answers[0])
  {
    if answers != [] && !LdapWorked(answers[0]) {
      PlayOneMore(flags, answers, 1);
      assert answers[..0] == [];
      var s := Start(flags);
      FirstReply(s, answers[0]);
      EndedStays(flags, answers, 1);
      NoAddEntryYet(s, answers[0]);
      assert false;
    }
  }

  /** The first LDAP step that does not work ends the run with its status. */
  lemma EndsAtStep(flags: nat, answers: seq<Answer>, k: nat)
    requires answers != [] && answers[0].transport.Good? && k < 14
    requires StepStatus(answers[0].ldap, k).Bad? && forall i :: 0 <= i < k ==> StepStatus(answers[0].ldap, i).Good?
    ensures Play(flags, answers).outcome == Fails(StepStatus(answers[0].ldap, k).code)
  {
    PlayOneMore(flags, answers, 1);
    assert answers[..0] == [];
    StepParts(Start(flags), answers[0]);
    Ldap1FirstBad(answers[0].ldap, 0, k, Connecting(1, answers[0]));
    EndedStays(flags, answers, 1);
  }

  lemma NothingSentBefore(w: Wait, flags: nat, a: Answer)
    ensures forall e :: e in Heard(w, a) || e in Tried(w, flags, a) ==> !Sends(e)
  {
    Ldap1TriedIs(a.ldap, 0);
  }

  lemma ThirdPart(t: Trace, x: Trace, y: Trace, z: Trace)
    requires forall e :: e in x || e in y ==> !Sends(e)
    ensures t <= t + x + y + z
    ensures forall i :: |t| <= i < |t + x + y + z| && Sends((t + x + y + z)[i]) ==> i >= |t + x + y| && (t + x + y + z)[i] == z[i - |t + x + y|]
  {
    forall i | |t| <= i < |t + x + y|
      ensures !Sends((t + x + y + z)[i])
    {
      assert (t + x + y + z)[i] in x || (t + x + y + z)[i] in y;
    }
  }

  /** A change request or reference update is always the last thing that the handling of a reply does. */
  lemma SendsLast(s: Stage, a: Answer)
    requires Going(s.outcome)
    ensures var t := Step(s, a);
            && s.trace <= t.trace
            && forall i :: |s.trace| <= i < |t.trace| && Sends(t.trace[i]) ==>
                 i == |t.trace| - 1 && t.outcome.Waits? && t.trace[i] == Asking(t.outcome.next, t.knows, t.flags)
  {
    var w, t := s.outcome.next, Step(s, a);
    NothingSentBefore(w, s.flags, a);
    StepParts(s, a);
    ThirdPart(s.trace, Heard(w, a), Tried(w, s.flags, a), Closing(t.outcome, t.knows, t.flags));
  }

  /** A reply adds to the trace, or changes nothing. */
  lemma StepExtends(s: Stage, a: Answer)
    ensures s.trace <= Step(s, a).trace && (!Going(s.outcome) ==> Step(s, a) == s)
  {
    if Going(s.outcome) {
      SendsLast(s, a);
    }
  }

  /** The i-th event of the trace was sent when the run stood there. */
  ghost predicate SentAt(s: Stage, t: Trace, i: nat) {
    && i < |t| && s.trace == t[..i + 1]
    && s.outcome.Waits? && t[i] == Asking(s.outcome.next, s.knows, s.flags)
  }

  lemma SentLonger(s: Stage, t: Trace, u: Trace, i: nat)
    requires SentAt(s, t, i) && t <= u
    ensures SentAt(s, u, i)
  {
    assert u[..i + 1] == t[..i + 1];
  }

  lemma LastRequest(s: Stage, a: Answer, i: nat)
    requires |s.trace| <= i < |Step(s, a).trace| && Sends(Step(s, a).trace[i])
    ensures SentAt(Step(s, a), Step(s, a).trace, i)
  {
    StepExtends(s, a);
    SendsLast(s, a);
    assert Step(s, a).trace[..i + 1] == Step(s, a).trace;
  }

  lemma PlayExtends(flags: nat, answers: seq<Answer>)
    requires answers != []
    ensures Play(flags, answers[..|answers| - 1]).trace <= Play(flags, answers).trace
  {
    StepExtends(Play(flags, answers[..|answers| - 1]), answers[|answers| - 1]);
  }

  lemma PlayLastRequest(flags: nat, answers: seq<Answer>, i: nat)
    requires answers != [] && |Play(flags, answers[..|answers| - 1]).trace| <= i < |Play(flags, answers).trace|
    requires Sends(Play(flags, answers).trace[i])
    ensures SentAt(Play(flags, answers), Play(flags, answers).trace, i)
  {
    LastRequest(Play(flags, answers[..|answers| - 1]), answers[|answers| - 1], i);
  }

  /** Each request of a run was sent after some number k of replies, and is the one that these determine. */
  lemma {:induction false} RequestAfter(flags: nat, answers: seq<Answer>, i: nat) returns (k: nat)
    requires i < |Play(flags, answers).trace| && Sends(Play(flags, answers).trace[i])
    ensures k <= |answers| && SentAt(Play(flags, answers[..k]), Play(flags, answers).trace, i)
    decreases |answers|
  {
    var n := |answers| - 1;
    var before := answers[..n];
    PlayExtends(flags, answers);
    if i < |Play(flags, before).trace| {
      k := RequestAfter(flags, before, i);
      assert before[..k] == answers[..k];
      SentLonger(Play(flags, before[..k]), Play(flags, before).trace, Play(flags, answers).trace, i);
    } else {
      k := |answers|;
      assert answers[..k] == answers;
      PlayLastRequest(flags, answers, i);
    }
  }

  /** The reply names its extensions, in the 24-byte or the 28-byte form, and version 8 is among them. */
  predicate OffersV8(info: BindInfo) {
    info == Info24(true) || info == Info28(true)
  }

  lemma RequestPlaced(s: Stage, answers: seq<Answer>, e: Event)
    requires Placed(s, answers) && s.outcome.Waits? && e == Asking(s.outcome.next, s.knows, s.flags) && Sends(e)
    ensures |answers| >= 7
    ensures e.SentUpdateRefs? ==> s.outcome.next.ForRefs? && AddedObject(answers[3].addEntry).0 == Some(e.guid)
    ensures e.SentGetChanges? ==>
              && e.mark == PartOf(s.knows, e.nc).mark && e.invocationId == PartOf(s.knows, e.nc).invocationId
              && e.level == if OffersV8(answers[5].bindInfo) then 8 else 5
  {
  }

  /** Every UpdateRefs of a run carries the object guid in the fourth reply, the one to AddEntry. */
  lemma RefsCarryTheReply(flags: nat, answers: seq<Answer>, i: nat)
    requires i < |Play(flags, answers).trace| && Play(flags, answers).trace[i].SentUpdateRefs?
    ensures |answers| > 3 && AddedObject(answers[3].addEntry).0 == Some(Play(flags, answers).trace[i].guid)
  {
    var k := RequestAfter(flags, answers, i);
    RepliesPlaced(flags, answers[..k]);
    RequestPlaced(Play(flags, answers[..k]), answers[..k], Play(flags, answers).trace[i]);
  }

  /** The reply is a page that the run takes in for the given partition. */
  ghost predicate TakenFor(s: Stage, nc: Nc, a: Answer) {
    s.outcome == Waits(ForChanges(nc)) && Accepted(ForChanges(nc), a) && Understands(a.form)
  }

  /** Watermark and invocation id in the latest page for a partition, and all the objects in its pages. */
  ghost function Pages(flags: nat, answers: seq<Answer>, nc: Nc): Part {
    if answers == [] then NOTHING
    else
      var n := |answers| - 1;
      var before := Pages(flags, answers[..n], nc);
      if TakenFor(Play(flags, answers[..n]), nc, answers[n])
      then Extended(before, answers[n]) else before
  }

  lemma PageKept(s: Stage, a: Answer, nc: Nc)
    requires Going(s.outcome)
    ensures PartOf(Step(s, a).knows, nc) ==
            if TakenFor(s, nc, a) then Extended(PartOf(s.knows, nc), a) else PartOf(s.knows, nc)
  {
    StepParts(s, a);
  }

  lemma {:induction false} KeepsPages(flags: nat, answers: seq<Answer>, nc: Nc)
    ensures PartOf(Play(flags, answers).knows, nc) == Pages(flags, answers, nc)
  {
    if answers != [] {
      var n := |answers| - 1;
      KeepsPages(flags, answers[..n], nc);
      if Going(Play(flags, answers[..n]).outcome) {
        PageKept(Play(flags, answers[..n]), answers[n], nc);
      }
    }
  }

  /**
   Every change request of a run resumes from the latest page for its partition among the replies it had by then,
   at the level that the sixth reply, the one to the second bind, offered.
   */
  lemma RequestsCarryReplies(flags: nat, answers: seq<Answer>, i: nat) returns (k: nat)
    requires i < |Play(flags, answers).trace| && Play(flags, answers).trace[i].SentGetChanges?
    ensures var e := Play(flags, answers).trace[i];
            && 7 <= k <= |answers| && Play(flags, answers[..k]).trace == Play(flags, answers).trace[..i + 1]
            && e.mark == Pages(flags, answers[..k], e.nc).mark && e.invocationId == Pages(flags, answers[..k], e.nc).invocationId
            && e.level == if OffersV8(answers[5].bindInfo) then 8 else 5
  {
    k := RequestAfter(flags, answers, i);
    RepliesPlaced(flags, answers[..k]);
    RequestPlaced(Play(flags, answers[..k]), answers[..k], Play(flags, answers).trace[i]);
    KeepsPages(flags, answers[..k], Play(flags, answers).trace[i].nc);
  }

  // ----- a run whose pages come from three replication sources -----

  datatype Logs = Logs(schema: seq<Change>, config: seq<Change>, domain: seq<Change>)

  function LogOf(logs: Logs, nc: Nc): seq<Change> {
    match nc
    case Schema => logs.schema
    case Config => logs.config
    case Domain => logs.domain
  }

  predicate Proper(logs: Logs) {
    forall nc :: LogOf(logs, nc) != [] && Ordered(LogOf(logs, nc))
  }

  predicate PageAt(log: seq<Change>, n: nat, a: Answer) {
    var m := n + |Page(a)|;
    && m <= |log| && Page(a) == LogObjects(log[n..m])
    && MarkAt(log, m, a.mark.tmpHighestUsn) && (MorePages(a) <==> m < |log|)
  }

  /** The reply holds the changes that follow the watermark of the request, and says whether they are the last. */
  ghost predicate Serves(log: seq<Change>, asked: Mark, a: Answer) {
    exists n: nat :: MarkAt(log, n, asked.tmpHighestUsn) && PageAt(log, n, a)
  }

  /** Every page that the run takes in comes from the source of its partition, in answer to the request sent. */
  ghost predicate ServedBy(flags: nat, answers: seq<Answer>, logs: Logs) {
    forall k, nc :: 0 <= k < |answers| && TakenFor(Play(flags, answers[..k]), nc, answers[k]) ==>
      Serves(LogOf(logs, nc), Last(Play(flags, answers[..k]).trace).value.mark, answers[k])
  }

  lemma MarkIsUnique(log: seq<Change>, n: nat, m: nat, usn: nat)
    requires Ordered(log) && MarkAt(log, n, usn) && MarkAt(log, m, usn)
    ensures n == m
  {
  }

  /** The first n changes of the log have arrived: all of them exactly when the run is past the partition. */
  ghost predicate HasPrefix(p: Part, log: seq<Change>, past: bool) {
    exists n: nat :: MarkAt(log, n, p.mark.tmpHighestUsn) && p.objects == LogObjects(log[..n]) && (past <==> n == |log|)
  }

  ghost predicate Past(w: Wait, nc: Nc) {
    Rank(w) > Rank(ForChanges(nc))
  }

  lemma LogObjectsSplit(log: seq<Change>, n: nat, m: nat)
    requires n <= m <= |log|
    ensures LogObjects(log[..m]) == LogObjects(log[..n]) + LogObjects(log[n..m])
  {
    assert log[..m] == log[..n] + log[n..m];
  }

  lemma PageExtendsAt(p: Part, log: seq<Change>, a: Answer, n: nat)
    requires n <= |log| && p.objects == LogObjects(log[..n]) && PageAt(log, n, a)
    ensures HasPrefix(Extended(p, a), log, !MorePages(a))
  {
    var m := n + |Page(a)|;
    LogObjectsSplit(log, n, m);
    assert MarkAt(log, m, a.mark.tmpHighestUsn) && Extended(p, a).objects == LogObjects(log[..m]);
  }

  lemma PageExtends(p: Part, log: seq<Change>, a: Answer)
    requires Ordered(log) && HasPrefix(p, log, false) && Serves(log, p.mark, a)
    ensures HasPrefix(Extended(p, a), log, !MorePages(a))
  {
    var n: nat :| MarkAt(log, n, p.mark.tmpHighestUsn) && p.objects == LogObjects(log[..n]);
    var n': nat :| MarkAt(log, n', p.mark.tmpHighestUsn) && PageAt(log, n', a);
    MarkIsUnique(log, n, n', p.mark.tmpHighestUsn);
    PageExtendsAt(p, log, a, n);
  }

  ghost predicate AllHavePrefix(s: Stage, logs: Logs) {
    s.outcome.Waits? ==>
      Known(s.outcome.next) && forall nc :: HasPrefix(PartOf(s.knows, nc), LogOf(logs, nc), Past(s.outcome.next, nc))
  }

  /** A run gets past a partition exactly with the last page of it. */
  lemma PastStep(s: Stage, a: Answer, nc: Nc)
    requires s.outcome.Waits? && Known(s.outcome.next) && Next(s.outcome.next, s.flags, a).Waits?
    ensures var next := Next(s.outcome.next, s.flags, a).next;
            Past(next, nc) <==> if TakenFor(s, nc, a) then !MorePages(a) else Past(s.outcome.next, nc)
    ensures TakenFor(s, nc, a) ==> !Past(s.outcome.next, nc)
  {
    NextRank(s.outcome.next, s.flags, a);
  }

  lemma PrefixStep(s: Stage, a: Answer, logs: Logs)
    requires Proper(logs) && Inv(s) && s.outcome.Waits? && AllHavePrefix(s, logs)
    requires forall nc :: TakenFor(s, nc, a) ==> Serves(LogOf(logs, nc), Last(s.trace).value.mark, a)
    ensures AllHavePrefix(Step(s, a), logs)
  {
    StepParts(s, a);
    NextRank(s.outcome.next, s.flags, a);
    var t := Step(s, a);
    if t.outcome.Waits? {
      forall nc
        ensures HasPrefix(PartOf(t.knows, nc), LogOf(logs, nc), Past(t.outcome.next, nc))
      {
        PageKept(s, a, nc);
        PastStep(s, a, nc);
        if TakenFor(s, nc, a) {
          PageExtends(PartOf(s.knows, nc), LogOf(logs, nc), a);
        }
      }
    }
  }

  lemma ServedBefore(flags: nat, answers: seq<Answer>, logs: Logs, k: nat)
    requires ServedBy(flags, answers, logs) && k <= |answers|
    ensures ServedBy(flags, answers[..k], logs)
  {
    assert forall j :: 0 <= j < k ==> answers[..k][..j] == answers[..j];
  }

  lemma {:induction false} PrefixesHeld(flags: nat, answers: seq<Answer>, logs: Logs)
    requires Proper(logs) && ServedBy(flags, answers, logs)
    ensures AllHavePrefix(Play(flags, answers), logs)
  {
    if answers == [] {
      forall nc
        ensures HasPrefix(NOTHING, LogOf(logs, nc), false)
      {
        var log := LogOf(logs, nc);
        assert MarkAt(log, 0, 0) && LogObjects(log[..0]) == [];
      }
    } else {
      var n := |answers| - 1;
      var before := answers[..n];
      ServedBefore(flags, answers, logs, n);
      PrefixesHeld(flags, before, logs);
      var s := Play(flags, before);
      if s.outcome.Waits? {
        EveryRunIsOrderly(flags, before);
        PrefixStep(s, answers[n], logs);
      }
    }
  }

  /** The run is past the three partitions, or has ended. */
  ghost predicate PastPulls(s: Stage) {
    s.outcome.Waits? ==> s.outcome.next.ForRefs?
  }

  lemma PastStays(s: Stage, a: Answer)
    requires PastPulls(s)
    ensures PastPulls(Step(s, a)) && Step(s, a).knows == s.knows
  {
    if Going(s.outcome) {
      StepParts(s, a);
    }
  }

  lemma {:induction false} ListsStay(flags: nat, answers: seq<Answer>, k: nat)
    requires k <= |answers| && PastPulls(Play(flags, answers[..k]))
    ensures PastPulls(Play(flags, answers)) && Play(flags, answers).knows == Play(flags, answers[..k]).knows
    decreases |answers|
  {
    if k == |answers| {
      assert answers[..k] == answers;
    } else {
      var n := |answers| - 1;
      assert answers[..n][..k] == answers[..k];
      ListsStay(flags, answers[..n], k);
      PastStays(Play(flags, answers[..n]), answers[n]);
    }
  }

  lemma AllPast(s: Stage, logs: Logs)
    requires AllHavePrefix(s, logs) && s.outcome.Waits? && s.outcome.next.ForRefs?
    ensures forall nc :: PartOf(s.knows, nc).objects == LogObjects(LogOf(logs, nc))
  {
    forall nc
      ensures PartOf(s.knows, nc).objects == LogObjects(LogOf(logs, nc))
    {
      var log := LogOf(logs, nc);
      assert HasPrefix(PartOf(s.knows, nc), log, true);
      assert log[..|log|] == log;
    }
  }

  /** When a reference update is sent, and ever after, the three lists are exactly the three logs. */
  lemma ListsAreTheLogs(flags: nat, answers: seq<Answer>, logs: Logs, i: nat) returns (k: nat)
    requires Proper(logs) && ServedBy(flags, answers, logs)
    requires i < |Play(flags, answers).trace| && Play(flags, answers).trace[i].SentUpdateRefs?
    ensures k <= |answers| && Play(flags, answers[..k]).trace == Play(flags, answers).trace[..i + 1]
    ensures forall nc :: PartOf(Play(flags, answers[..k]).knows, nc).objects == LogObjects(LogOf(logs, nc))
    ensures Play(flags, answers).knows == Play(flags, answers[..k]).knows
  {
    k := RequestAfter(flags, answers, i);
    ServedBefore(flags, answers, logs, k);
    PrefixesHeld(flags, answers[..k], logs);
    RepliesPlaced(flags, answers[..k]);
    RequestPlaced(Play(flags, answers[..k]), answers[..k], Play(flags, answers).trace[i]);
    AllPast(Play(flags, answers[..k]), logs);
    ListsStay(flags, answers, k);
  }

  lemma ListsComplete(flags: nat, answers: seq<Answer>, logs: Logs)
    requires Proper(logs) && ServedBy(flags, answers, logs) && exists nc :: RefsSent(Play(flags, answers).trace, nc)
    ensures forall nc :: PartOf(Play(flags, answers).knows, nc).objects == LogObjects(LogOf(logs, nc))
  {
    var t := Play(flags, answers).trace;
    var nc :| RefsSent(t, nc);
    var i: nat :| i < |t| && t[i].SentUpdateRefs? && t[i].nc == nc;
    var k := ListsAreTheLogs(flags, answers, logs, i);
  }
}
