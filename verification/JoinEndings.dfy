/** How far the replies let a run of the domain join come, and the status with which it ends. */
module JoinEndings {
  import opened Wrappers
  import opened ReplicationPull
  import opened JoinTrace
  import opened JoinOutcome
  import opened JoinOrder
  import opened JoinReplies

  /** The reply to AddEntry carries exactly one object. */
  predicate CarriesOne(o: AddEntryOut) {
    !o.OtherOut? && o.count == 1
  }

  // ----- the seven replies before the first page -----

  /** A run that waits for the reply to AddEntry, or for nothing. */
  lemma ReplyToAddEntry(s: Stage, a: Answer)
    requires s.outcome.Waits? ==> s.outcome.next == ForAddEntry
    ensures Step(s, a).outcome == Waits(ForConnect(2)) <==>
            s.outcome.Waits? && a.transport.Good? && a.result.Good? && CarriesOne(a.addEntry) && a.binding.Good?
  {
    if s.outcome.Waits? {
      StepParts(s, a);
    } else {
      StepExtends(s, a);
    }
  }

  /** The third connection needs no binding of its own. */
  lemma ReplyToBind(s: Stage, a: Answer)
    requires s.outcome.Waits? ==> s.outcome.next == ForBind(2)
    ensures Step(s, a).outcome == Waits(ForConnect(3)) <==> s.outcome.Waits? && a.transport.Good? && a.result.Good?
  {
    if s.outcome.Waits? {
      StepParts(s, a);
    } else {
      StepExtends(s, a);
    }
  }

  lemma ReplyToConnect(s: Stage, a: Answer, pipe: nat)
    requires (pipe == 2 || pipe == 3) && (s.outcome.Waits? ==> s.outcome.next == ForConnect(pipe))
    ensures Step(s, a).outcome == Waits(if pipe == 3 then ForChanges(Schema) else ForBind(pipe)) <==>
            s.outcome.Waits? && a.transport.Good?
  {
    if s.outcome.Waits? {
      StepParts(s, a);
    } else {
      StepExtends(s, a);
    }
  }

  lemma RankIs(w: Wait)
    requires Known(w)
    ensures Rank(w) == 3 ==> w == ForAddEntry
    ensures Rank(w) == 4 ==> w == ForConnect(2)
    ensures Rank(w) == 5 ==> w == ForBind(2)
    ensures Rank(w) == 6 ==> w == ForConnect(3)
  {
  }

  lemma PlacedRank(s: Stage, answers: seq<Answer>)
    requires Placed(s, answers) && s.outcome.Waits? && |answers| < 7
    ensures Known(s.outcome.next) && Rank(s.outcome.next) == |answers|
  {
  }

  /** The reply whose turn it is after k replies. */
  function TurnOf(k: nat): Wait
    requires 3 <= k <= 6
  {
    if k == 3 then ForAddEntry else if k == 4 then ForConnect(2) else if k == 5 then ForBind(2) else ForConnect(3)
  }

  function NextTurn(k: nat): Wait
    requires 3 <= k <= 6
  {
    if k == 6 then ForChanges(Schema) else TurnOf(k + 1)
  }

  /** The reply lets a run go on that waits for it at this place. */
  predicate LetsGoOn(k: nat, a: Answer) {
    && a.transport.Good?
    && (k == 3 ==> a.result.Good? && CarriesOne(a.addEntry) && a.binding.Good?)
    && (k == 5 ==> a.result.Good?)
  }

  /** Before the first page, a run that goes on waits for the reply whose turn it is. */
  lemma TurnIs(s: Stage, answers: seq<Answer>)
    requires Placed(s, answers) && 3 <= |answers| <= 6 && s.outcome.Waits?
    ensures s.outcome.next == TurnOf(|answers|)
  {
    PlacedRank(s, answers);
    RankIs(s.outcome.next);
  }

  lemma TurnTaken(s: Stage, a: Answer, k: nat)
    requires 3 <= k <= 6 && (s.outcome.Waits? ==> s.outcome.next == TurnOf(k))
    ensures Step(s, a).outcome == Waits(NextTurn(k)) <==> s.outcome.Waits? && LetsGoOn(k, a)
  {
    match k
    case 3 => ReplyToAddEntry(s, a);
    case 5 => ReplyToBind(s, a);
    case _ => ReplyToConnect(s, a, if k == 4 then 2 else 3);
  }

  /** The reply after k others, from the fourth to the seventh: s and t are the run before and after it. */
  lemma NthReply(s: Stage, t: Stage, before: seq<Answer>, a: Answer)
    requires Placed(s, before) && 3 <= |before| <= 6 && t == Step(s, a)
    ensures t.outcome == Waits(NextTurn(|before|)) <==> s.outcome == Waits(TurnOf(|before|)) && LetsGoOn(|before|, a)
  {
    if s.outcome.Waits? {
      TurnIs(s, before);
    }
    TurnTaken(s, a, |before|);
  }

  /** The same of a run: what its replies are after k of them, and after one more. */
  lemma NthOfRun(flags: nat, answers: seq<Answer>, k: nat)
    requires 3 <= k <= 6 && k < |answers|
    ensures Play(flags, answers[..k + 1]).outcome == Waits(NextTurn(k)) <==>
            Play(flags, answers[..k]).outcome == Waits(TurnOf(k)) && LetsGoOn(k, answers[k])
  {
    RepliesPlaced(flags, answers[..k]);
    PlayOneMore(flags, answers, k + 1);
    NthReply(Play(flags, answers[..k]), Play(flags, answers[..k + 1]), answers[..k], answers[k]);
  }

  /** What the first seven replies must be for the pull of the partitions to begin. */
  predicate LeadToPulls(answers: seq<Answer>)
    requires |answers| >= 7
  {
    && ReachesAddEntry(answers)
    && answers[3].transport.Good? && answers[3].result.Good? && CarriesOne(answers[3].addEntry) && answers[3].binding.Good?
    && answers[4].transport.Good?
    && answers[5].transport.Good? && answers[5].result.Good?
    && answers[6].transport.Good?
  }

  /** The first request for changes is sent exactly when these replies have come. */
  lemma PullsStart(flags: nat, answers: seq<Answer>)
    requires |answers| >= 7
    ensures Play(flags, answers[..7]).outcome == Waits(ForChanges(Schema)) <==> LeadToPulls(answers)
  {
    FirstThreeReplies(flags, answers);
    NthOfRun(flags, answers, 3);
    NthOfRun(flags, answers, 4);
    NthOfRun(flags, answers, 5);
    NthOfRun(flags, answers, 6);
  }

  // ----- the status of a run that ends -----

  lemma StepEnds(flags: nat, answers: seq<Answer>, n: nat)
    requires n < |answers|
    ensures var t := Step(Play(flags, answers[..n]), answers[n]);
            !Going(t.outcome) ==> Play(flags, answers).outcome == t.outcome && Play(flags, answers).knows == t.knows
  {
    PlayOneMore(flags, answers, n + 1);
    if !Going(Play(flags, answers[..n + 1]).outcome) {
      EndedStays(flags, answers, n + 1);
    }
  }

  /** A call that fails, or a remote operation that does, ends the run with its own status. */
  lemma RefusalEnds(flags: nat, answers: seq<Answer>, n: nat)
    requires n < |answers| && Going(Play(flags, answers[..n]).outcome)
    ensures var w, a := Play(flags, answers[..n]).outcome.next, answers[n];
            && (a.transport.Bad? ==> Play(flags, answers).outcome == Fails(a.transport.code))
            && (a.transport.Good? && a.result.Bad? && !w.ForCldap? && !w.ForConnect? ==>
                  Play(flags, answers).outcome == Fails(a.result.code))
  {
    StepParts(Play(flags, answers[..n]), answers[n]);
    StepEnds(flags, answers, n);
  }

  /** The status that a reply to AddEntry without exactly one object ends the run with; a success there aborts it. */
  predicate EndsAdding(o: AddEntryOut, end: Outcome) {
    match o
    case Ctr3(_, _, errorLevel, error) =>
      if errorLevel == 1 && error.Some? then end == Failing(error.value) else end == Fails(0xC00000C3)
    case Ctr2(_, _, status) => end == Failing(status)
    case OtherOut => end == Fails(0xC00000C3)
  }

  lemma AddEntryEnds(flags: nat, answers: seq<Answer>)
    requires |answers| > 3 && ReachesAddEntry(answers) && answers[3].transport.Good? && answers[3].result.Good?
    ensures !CarriesOne(answers[3].addEntry) ==> EndsAdding(answers[3].addEntry, Play(flags, answers).outcome)
    ensures CarriesOne(answers[3].addEntry) && answers[3].binding.Bad? ==> Play(flags, answers).outcome == Fails(answers[3].binding.code)
  {
    FirstThreeReplies(flags, answers);
    StepParts(Play(flags, answers[..3]), answers[3]);
    StepEnds(flags, answers, 3);
  }

  /** The forms of a page that the run can read. */
  predicate Readable(f: ReplyForm) {
    f == AtLevel1 || f == AtLevel2 || f == AtLevel6 || f == AtLevel7(6, true)
  }

  lemma ReadableIs(f: ReplyForm)
    ensures Readable(f) <==> Understands(f)
  {
  }

  /** What a page makes of what was held of its partition. */
  function WithPage(p: Part, a: Answer): Part {
    Part(a.sourceDsaGuid, a.invocationId, a.mark, p.objects + [a.first] + a.others)
  }

  lemma PageStep(s: Stage, a: Answer, nc: Nc)
    requires s.outcome == Waits(ForChanges(nc)) && a.transport.Good? && a.result.Good?
    ensures var t := Step(s, a);
            if Readable(a.form) then
              && t.knows == WithPart(s.knows, nc, WithPage(PartOf(s.knows, nc), a))
              && (t.outcome == Waits(ForChanges(nc)) <==> a.mark.tmpHighestUsn > a.mark.highestUsn)
            else t.outcome == Fails(0xC00000C3) && t.knows == s.knows
  {
    StepParts(s, a);
    ReadableIs(a.form);
    var had := PartOf(s.knows, nc).objects;
    assert had + ([a.first] + a.others) == had + [a.first] + a.others;
  }

  lemma OtherParts(k: Knowledge, nc: Nc, p: Part)
    ensures PartOf(WithPart(k, nc, p), nc) == p
    ensures forall other :: other != nc ==> PartOf(WithPart(k, nc, p), other) == PartOf(k, other)
  {
  }

  /**
   A reply to a request for changes that did not fail: a readable one is taken in, and more are asked for as long as
   it says so; any other ends the run, and nothing of it is kept.
   */
  lemma PageTaken(flags: nat, answers: seq<Answer>, n: nat, nc: Nc)
    requires n < |answers| && Play(flags, answers[..n]).outcome == Waits(ForChanges(nc))
    requires answers[n].transport.Good? && answers[n].result.Good?
    ensures var s, t, a := Play(flags, answers[..n]), Play(flags, answers[..n + 1]), answers[n];
            if Readable(a.form) then
              && PartOf(t.knows, nc) == WithPage(PartOf(s.knows, nc), a)
              && (forall other :: other != nc ==> PartOf(t.knows, other) == PartOf(s.knows, other))
              && (t.outcome == Waits(ForChanges(nc)) <==> a.mark.tmpHighestUsn > a.mark.highestUsn)
            else Play(flags, answers).outcome == Fails(0xC00000C3) && Play(flags, answers).knows == s.knows
  {
    var s, a := Play(flags, answers[..n]), answers[n];
    PageStep(s, a, nc);
    StepEnds(flags, answers, n);
    PlayOneMore(flags, answers, n + 1);
    OtherParts(s.knows, nc, WithPage(PartOf(s.knows, nc), a));
  }

  /** After the last page of the config partition: what the second LDAP connection must achieve for the domain pull to begin. */
  lemma DomainStarts(flags: nat, answers: seq<Answer>, n: nat)
    requires n < |answers| && Play(flags, answers[..n]).outcome == Waits(ForChanges(Config))
    requires answers[n].transport.Good? && answers[n].result.Good? && Readable(answers[n].form)
    requires answers[n].mark.tmpHighestUsn <= answers[n].mark.highestUsn
    ensures var s, ldap := Play(flags, answers[..n]), answers[n].ldap;
            var modified := s.flags == DC_FLAGS || StepStatus(ldap, 1).Good?;
            && (Play(flags, answers[..n + 1]).outcome == Waits(ForChanges(Domain)) <==>
                  StepStatus(ldap, 0).Good? && modified && StepStatus(ldap, 2).Good?)
            && (StepStatus(ldap, 0).Bad? ==> Play(flags, answers).outcome == Fails(StepStatus(ldap, 0).code))
            && (StepStatus(ldap, 0).Good? && !modified ==> Play(flags, answers).outcome == Fails(StepStatus(ldap, 1).code))
            && (StepStatus(ldap, 0).Good? && modified && StepStatus(ldap, 2).Bad? ==>
                  Play(flags, answers).outcome == Fails(StepStatus(ldap, 2).code))
  {
    StepParts(Play(flags, answers[..n]), answers[n]);
    StepEnds(flags, answers, n);
    PlayOneMore(flags, answers, n + 1);
  }

  // ----- the account flags -----

  /** The account is modified only if its flags are wrong, and they change in no other way. */
  predicate FlagsKept(s: Stage, flags: nat) {
    && (Ldap2(1) in s.trace ==> flags != DC_FLAGS)
    && (s.flags != flags ==> s.flags == DC_FLAGS && Ldap2(1) in s.trace)
  }

  lemma NotHeard(w: Wait, a: Answer)
    ensures Ldap2(1) !in Heard(w, a)
  {
  }

  lemma NotAsked(o: Outcome, k: Knowledge, flags: nat)
    ensures Ldap2(1) !in Closing(o, k, flags)
  {
  }

  /** The account is modified exactly when it could be reached and its flags are wrong. */
  lemma ModifiedWhen(ldap: seq<Status>, flags: nat)
    ensures Ldap2(1) in Ldap2Tried(ldap, flags) <==> StepStatus(ldap, 0).Good? && flags != DC_FLAGS
  {
  }

  lemma TriedModifies(w: Wait, flags: nat, a: Answer)
    ensures Ldap2(1) in Tried(w, flags, a) ==> flags != DC_FLAGS
    ensures NextFlags(w, flags, a) != flags ==> NextFlags(w, flags, a) == DC_FLAGS && Ldap2(1) in Tried(w, flags, a)
  {
    Ldap1TriedIs(a.ldap, 0);
    ModifiedWhen(a.ldap, flags);
  }

  lemma FlagsStep(s: Stage, a: Answer, flags: nat)
    requires Going(s.outcome) && FlagsKept(s, flags)
    ensures FlagsKept(Step(s, a), flags)
  {
    var w, t := s.outcome.next, Step(s, a);
    StepParts(s, a);
    NotHeard(w, a);
    NotAsked(t.outcome, t.knows, t.flags);
    TriedModifies(w, s.flags, a);
  }

  /** A domain pull finds the flags set: they were right from the start, or the run has set them. */
  lemma {:induction false} FlagsAre(flags: nat, answers: seq<Answer>)
    ensures FlagsKept(Play(flags, answers), flags)
  {
    if answers != [] {
      var n := |answers| - 1;
      FlagsAre(flags, answers[..n]);
      if Going(Play(flags, answers[..n]).outcome) {
        FlagsStep(Play(flags, answers[..n]), answers[n], flags);
      }
    }
  }

  lemma AskedWithFlags(flags: nat, answers: seq<Answer>, i: nat)
    requires i < |Play(flags, answers).trace| && Play(flags, answers).trace[i].SentGetChanges? && Play(flags, answers).trace[i].nc == Domain
    ensures Play(flags, answers).trace[i].accountFlags == DC_FLAGS
  {
    EveryRunIsOrderly(flags, answers);
    var schema, config := DomainComesLast(Play(flags, answers).trace, i);
  }

  lemma AskedAfterModify(s: Stage, t: Trace, i: nat, flags: nat)
    requires SentAt(s, t, i) && FlagsKept(s, flags) && t[i].SentGetChanges? && t[i].accountFlags == DC_FLAGS
    ensures flags != DC_FLAGS <==> Ldap2(1) in t[..i]
  {
    assert s.trace == t[..i] + [t[i]];
  }

  /** An account whose flags were wrong has been modified before the domain partition is asked for. */
  lemma ModifiedFirst(flags: nat, answers: seq<Answer>, i: nat)
    requires i < |Play(flags, answers).trace| && Play(flags, answers).trace[i].SentGetChanges? && Play(flags, answers).trace[i].nc == Domain
    ensures flags != DC_FLAGS <==> Ldap2(1) in Play(flags, answers).trace[..i]
  {
    AskedWithFlags(flags, answers, i);
    var k := RequestAfter(flags, answers, i);
    FlagsAre(flags, answers[..k]);
    AskedAfterModify(Play(flags, answers[..k]), Play(flags, answers).trace, i, flags);
  }
}
