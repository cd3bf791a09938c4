/** The domain join with its server-object phase run against a directory. */
module JoinDirectory {
  import opened Wrappers
  import opened JoinTrace
  import opened JoinOutcome
  import JoinReplies
  import DomainJoin
  import S = ServerObject

  const OBJECT_NAME_COLLISION: nat := 0xC0000035

  function LdapCode(code: S.Code): nat {
    match code
    case Success => 0
    case AttributeOrValueExists => 20
    case NoSuchObject => 32
    case EntryAlreadyExists => 68
    case Other(c) => c
  }

  function NtStatus(s: S.Status): Status {
    match s
    case Ok => Good
    case NameCollision => Bad(OBJECT_NAME_COLLISION)
    case Ldap(code) => Bad(0xF2000000 + LdapCode(code))
  }

  /** The nine steps before the computer object, and that one, worked. */
  predicate ReachesServerObject(a: Answer) {
    a.transport.Good? && forall i :: 0 <= i < 10 ==> StepStatus(a.ldap, i).Good?
  }

  /** The reply with the outcome of the last four LDAP steps: so many worked, and then one ended with the given status. */
  function WithSteps(a: Answer, done: nat, s: S.Status): Answer {
    a.(ldap := seq(14, i requires 0 <= i < 14 =>
                     if i < 10 then StepStatus(a.ldap, i) else if i == 10 + done then NtStatus(s) else Good))
  }

  lemma StepsAre(a: Answer, done: nat, s: S.Status)
    requires done <= 4 && (s == S.Ok <==> done == 4)
    ensures var ldap := WithSteps(a, done, s).ldap;
            && (forall i :: 0 <= i < 10 ==> StepStatus(ldap, i) == StepStatus(a.ldap, i))
            && (forall i :: 10 <= i < 10 + done ==> StepStatus(ldap, i).Good?)
            && (done < 4 ==> StepStatus(ldap, 10 + done) == NtStatus(s))
            && (done == 4 ==> forall i :: 10 <= i < 14 ==> StepStatus(ldap, i).Good?)
  {
    var ldap := WithSteps(a, done, s).ldap;
    forall i | 0 <= i < 14
      ensures StepStatus(ldap, i) == if i < 10 then StepStatus(a.ldap, i) else if i == 10 + done then NtStatus(s) else Good
    {
    }
  }

  /** The directory steps that follow the first reply, if they are reached. */
  method Connect(a: Answer, phase: S.Phase) returns (a': Answer, ghost s: S.Status, ghost done: nat)
    requires phase.serverDn == None
    modifies phase, phase.ldb
    ensures a' == a.(ldap := a'.ldap) && forall i :: 0 <= i < 10 ==> StepStatus(a'.ldap, i) == StepStatus(a.ldap, i)
    ensures JoinReplies.LdapWorked(a') && ReachesServerObject(a) ==>
              phase.serverDn.Some? && S.Refers(phase.ldb.dir, phase.serverDn.value, phase.computerDn)
    ensures !ReachesServerObject(a) ==> phase.ldb.dir == old(phase.ldb.dir) && !ReachesServerObject(a')
    ensures ReachesServerObject(a) ==>
              && ReachesServerObject(a') && done <= 4 && (s == S.Ok <==> JoinReplies.LdapWorked(a'))
              && (s != S.Ok ==> done < 4 && StepStatus(a'.ldap, 10 + done) == NtStatus(s))
              && forall i :: 10 <= i < 10 + done ==> StepStatus(a'.ldap, i).Good?
    ensures S.Taken(old(phase.ldb.dir), phase.standardDn, phase.computerDn) ==>
              phase.ldb.dir == old(phase.ldb.dir) && !JoinReplies.LdapWorked(a')
    ensures ReachesServerObject(a) && !phase.ldb.refused && phase.computerDn in old(phase.ldb.dir) ==>
              s == if S.Taken(old(phase.ldb.dir), phase.standardDn, phase.computerDn) then S.NameCollision else S.Ok
  {
    if !ReachesServerObject(a) {
      return a, S.Ok, 0;
    }
    var status, steps := phase.Run();
    a' := WithSteps(a, steps, status);
    StepsAre(a, steps, status);
    s, done := status, steps;
  }

  /** The end of a run whose server-object phase ended like this. */
  predicate EndsWith(o: Outcome, s: S.Status) {
    match s
    case Ok => true
    case NameCollision => o == Fails(0xC0000035)
    case Ldap(code) => o == Fails(0xF2000000 + LdapCode(code))
  }

  /** The first reply tells how the phase ended, and after how many steps. */
  ghost predicate Tells(a: Answer, s: S.Status, done: nat) {
    && ReachesServerObject(a) && (s == S.Ok <==> JoinReplies.LdapWorked(a))
    && (s != S.Ok ==> done < 4 && StepStatus(a.ldap, 10 + done) == NtStatus(s))
    && forall i :: 10 <= i < 10 + done ==> StepStatus(a.ldap, i).Good?
  }

  /** A run ends at the first of the four steps that did not work. */
  lemma EndsAsTold(flags: nat, heard: seq<Answer>, s: S.Status, done: nat)
    requires heard != [] && Tells(heard[0], s, done)
    ensures EndsWith(Play(flags, heard).outcome, s)
  {
    if s != S.Ok {
      JoinReplies.EndsAtStep(flags, heard, 10 + done);
    }
  }

  lemma SentOnlyIfWorked(flags: nat, heard: seq<Answer>)
    ensures SentAddEntry in Play(flags, heard).trace ==> heard != [] && JoinReplies.LdapWorked(heard[0])
  {
    if SentAddEntry in Play(flags, heard).trace {
      JoinReplies.AddEntryNeedsLdap(flags, heard);
    }
  }

  /** The replies, with the first as the directory makes it. */
  method Hear(answers: seq<Answer>, ldb: S.Ldb, computerDn: S.Dn, standardDn: S.Dn)
    returns (heard: seq<Answer>, ghost s: S.Status, ghost done: nat)
    requires answers != []
    modifies ldb
    ensures |heard| == |answers| && heard[1..] == answers[1..] && heard[0] == answers[0].(ldap := heard[0].ldap)
    ensures JoinReplies.LdapWorked(heard[0]) ==> ReachesServerObject(answers[0]) && exists d :: S.Refers(ldb.dir, d, computerDn)
    ensures ReachesServerObject(answers[0]) ==> Tells(heard[0], s, done)
    ensures !ReachesServerObject(answers[0]) ==> ldb.dir == old(ldb.dir)
    ensures S.Taken(old(ldb.dir), standardDn, computerDn) ==> ldb.dir == old(ldb.dir) && !JoinReplies.LdapWorked(heard[0])
    ensures ReachesServerObject(answers[0]) && !ldb.refused && computerDn in old(ldb.dir) ==>
              s == if S.Taken(old(ldb.dir), standardDn, computerDn) then S.NameCollision else S.Ok
  {
    var phase := new S.Phase(ldb, computerDn, standardDn);
    var first;
    first, s, done := Connect(answers[0], phase);
    heard := [first] + answers[1..];
  }

  /**
   A run whose first LDAP connection goes to the given directory; heard are the replies with the outcome of its
   last four steps. AddEntry is sent only when an object in the directory refers to the computer, and a server
   object of another computer at the standard place means that nothing is written and AddEntry is never sent. When
   the phase is reached and ends in an error, s, the run ends with it.
   */
  method RunWithDirectory(accountFlags: nat, answers: seq<Answer>, ldb: S.Ldb, computerDn: S.Dn, standardDn: S.Dn)
    returns (j: DomainJoin.Join, heard: seq<Answer>, ghost s: S.Status)
    modifies ldb
    ensures fresh(j) && j.Valid() && j.Now() == Play(accountFlags, heard) && |heard| == |answers|
    ensures answers != [] ==> heard[1..] == answers[1..] && heard[0] == answers[0].(ldap := heard[0].ldap)
    ensures SentAddEntry in j.trace ==> exists d :: S.Refers(ldb.dir, d, computerDn)
    ensures S.Taken(old(ldb.dir), standardDn, computerDn) ==> ldb.dir == old(ldb.dir) && SentAddEntry !in j.trace
    ensures answers == [] || !ReachesServerObject(answers[0]) ==> ldb.dir == old(ldb.dir) && SentAddEntry !in j.trace
    ensures answers != [] && answers[0].transport.Good? && (forall i :: 0 <= i < 10 ==> StepStatus(answers[0].ldap, i).Good?) ==>
              && EndsWith(j.Now().outcome, s) && (s == S.Ok <==> JoinReplies.LdapWorked(heard[0]))
              && (!ldb.refused && computerDn in old(ldb.dir) ==>
                    s == if S.Taken(old(ldb.dir), standardDn, computerDn) then S.NameCollision else S.Ok)
  {
    heard, s := answers, S.Ok;
    ghost var done := 0;
    if answers != [] {
      heard, s, done := Hear(answers, ldb, computerDn, standardDn);
    }
    SentOnlyIfWorked(accountFlags, heard);
    if answers != [] && ReachesServerObject(answers[0]) {
      EndsAsTold(accountFlags, heard, s, done);
    }
    j := DomainJoin.Run(accountFlags, heard);
    assert j.trace == j.Now().trace;
  }
}
