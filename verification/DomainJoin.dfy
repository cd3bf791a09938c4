/** libnet_BecomeDC as a run of continuations, each started by the reply to the one request outstanding. */
module DomainJoin {
  import opened ReplicationPull
  import opened JoinTrace
  import opened JoinOutcome
  import JoinOrder
  import JoinReplies

  lemma ObjectsOfBoth(a: seq<Item>, b: seq<Item>)
    ensures Objects(a + b) == Objects(a) + Objects(b)
  {
  }

  /** What a partition's list, watermark and invocation id amount to. */
  ghost function Received(p: Partition): Part
    reads p
  {
    Part(p.sourceDsaGuid, p.invocationId, p.mark, Objects(p.spine))
  }

  function Taken(a: Answer): WError {
    if a.result.Bad? then Error(a.result.code) else if Understands(a.form) then Ok else BadNetResp
  }

  /** What a reply for a partition, here or elsewhere, makes of it. */
  function After(p: Part, here: bool, a: Answer): Part {
    if here && Taken(a) == Ok then Extended(p, a) else p
  }

  /** A reply to GetNCChanges is unmarshalled and handed to becomeDC_drsuapi_pull_partition_recv. */
  method Absorb(p: Partition, a: Answer) returns (w: WError)
    requires p.Valid()
    modifies p, if p.last == null then {} else {p.last}
    ensures p.Valid() && forall x :: x in p.spine ==> x in old(p.spine) || fresh(x)
    ensures w == Taken(a)
    ensures Received(p) == After(old(Received(p)), true, a)
  {
    ghost var before := p.spine;
    if a.result.Bad? {
      w := p.Recv(Reply.Failed(a.result.code), []);
    } else {
      var head, page := BuildPage(Page(a));
      w := p.Recv(InForm(a.form, Ctr(a.sourceDsaGuid, a.invocationId, a.mark, head)), page);
      ObjectsOfBoth(before, page);
    }
  }

  /** A proper partition that lives, with its list, in the given part of the heap. */
  ghost predicate Owned(p: Partition, region: set<object>)
    reads region
  {
    p in region && (forall x :: x in p.spine ==> x in region) && p.Valid()
  }

  /** The same for a partition in its region, which grows by the new items. */
  method AbsorbOwned(p: Partition, a: Answer, ghost region: set<object>) returns (w: WError, ghost region': set<object>)
    requires Owned(p, region)
    modifies region
    ensures Owned(p, region') && region <= region' && fresh(region' - region)
    ensures w == Taken(a) && Received(p) == After(old(Received(p)), true, a)
  {
    assert p.last != null ==> p.last in p.spine;
    w := Absorb(p, a);
    region' := region + set x | x in p.spine;
  }

  /** schema_part, config_part and domain_part: three lists that share nothing. */
  class Partitions {
    const schema: Partition
    const config: Partition
    const domain: Partition
    ghost var schemaRepr: set<object>
    ghost var configRepr: set<object>
    ghost var domainRepr: set<object>
    ghost var Repr: set<object>

    ghost predicate Valid()
      reads this, Repr
    {
      && Repr == {this} + schemaRepr + configRepr + domainRepr
      && this !in schemaRepr && this !in configRepr && this !in domainRepr
      && schemaRepr !! configRepr && schemaRepr !! domainRepr && configRepr !! domainRepr
      && Owned(schema, schemaRepr) && Owned(config, configRepr) && Owned(domain, domainRepr)
    }

    constructor ()
      ensures Valid() && fresh(Repr)
      ensures Received(schema) == Received(config) == Received(domain) == NOTHING
    {
      schema := new Partition(0);
      config := new Partition(0);
      domain := new Partition(0);
      new;
      schemaRepr, configRepr, domainRepr := {schema}, {config}, {domain};
      Repr := {this, schema, config, domain};
    }

    function Of(nc: Nc): Partition
    {
      match nc
      case Schema => schema
      case Config => config
      case Domain => domain
    }

    method AbsorbSchema(a: Answer) returns (w: WError)
      requires Valid()
      modifies Repr
      ensures Valid() && fresh(Repr - old(Repr)) && w == Taken(a)
      ensures Received(schema) == After(old(Received(schema)), true, a)
      ensures Received(config) == old(Received(config)) && Received(domain) == old(Received(domain))
    {
      w, schemaRepr := AbsorbOwned(schema, a, schemaRepr);
      Repr := {this} + schemaRepr + configRepr + domainRepr;
    }

    method AbsorbConfig(a: Answer) returns (w: WError)
      requires Valid()
      modifies Repr
      ensures Valid() && fresh(Repr - old(Repr)) && w == Taken(a)
      ensures Received(config) == After(old(Received(config)), true, a)
      ensures Received(schema) == old(Received(schema)) && Received(domain) == old(Received(domain))
    {
      w, configRepr := AbsorbOwned(config, a, configRepr);
      Repr := {this} + schemaRepr + configRepr + domainRepr;
    }

    method AbsorbDomain(a: Answer) returns (w: WError)
      requires Valid()
      modifies Repr
      ensures Valid() && fresh(Repr - old(Repr)) && w == Taken(a)
      ensures Received(domain) == After(old(Received(domain)), true, a)
      ensures Received(schema) == old(Received(schema)) && Received(config) == old(Received(config))
    {
      w, domainRepr := AbsorbOwned(domain, a, domainRepr);
      Repr := {this} + schemaRepr + configRepr + domainRepr;
    }

    /** A reply goes to one list; the other two stay as they are. */
    method AbsorbInto(nc: Nc, a: Answer) returns (w: WError)
      requires Valid()
      modifies Repr
      ensures Valid() && fresh(Repr - old(Repr)) && w == Taken(a)
      ensures Received(schema) == After(old(Received(schema)), nc == Schema, a)
      ensures Received(config) == After(old(Received(config)), nc == Config, a)
      ensures Received(domain) == After(old(Received(domain)), nc == Domain, a)
    {
      match nc {
        case Schema => w := AbsorbSchema(a);
        case Config => w := AbsorbConfig(a);
        case Domain => w := AbsorbDomain(a);
      }
    }
  }

  /** libnet_BecomeDC_state */
  class Join {
    const parts: Partitions
    var state: RunState
    var waiting: Wait
    var v8: bool                 // drsuapi2.remote_info28 has GETCHGREQ_V8
    var ntdsGuid: Guid
    var userAccountControl: nat  // dest_dsa.user_account_control
    var accountFlags: nat        // the same attribute as the directory holds it
    var trace: Trace             // what has been sent and received

    ghost predicate Consistent()
      reads this
    {
      && state != Done && (state.InProgress? <==> waiting != ForNothing)
      && (waiting.ForCldap? || waiting.ForNothing? || userAccountControl == accountFlags)
    }

    ghost predicate Valid()
      reads this, parts, parts.Repr
    {
      parts.Valid() && this !in parts.Repr && Consistent()
    }

    ghost function OutcomeNow(): Outcome
      reads this
    {
      match state
      case InProgress => Waits(waiting)
      case InError(code) => Fails(code)
      case Aborted => Aborts
      case Done => Aborts
    }

    /** Where the run stands. */
    ghost function Now(): Stage
      reads this, parts.schema, parts.config, parts.domain
    {
      Stage(OutcomeNow(), accountFlags,
            Knowledge(v8, ntdsGuid, Received(parts.schema), Received(parts.config), Received(parts.domain)), trace)
    }

    lemma KnowsLists(nc: Nc)
      ensures PartOf(Now().knows, nc) == Received(parts.Of(nc))
    {
    }

    constructor (accountFlags: nat)
      ensures Valid() && Now() == Start(accountFlags) && fresh(parts.Repr)
    {
      parts := new Partitions();
      state, waiting, v8, ntdsGuid, userAccountControl := InProgress, ForCldap, false, 0, 0;
      this.accountFlags := accountFlags;
      trace := [SentCldap];
    }

    /** composite_error, which asserts that it is not given a success. */
    method Fail(status: Status)
      requires Consistent() && state.InProgress?
      modifies this`state, this`waiting, this`trace
      ensures Consistent() && Now() == Enter(old(Now()), Failing(status))
    {
      waiting := ForNothing;
      if status.Good? {
        assert trace + [] == trace;
        state := Aborted;
      } else {
        trace := trace + [Event.Failed];
        state := InError(status.code);
      }
    }

    /** One LDAP step; the tenth reads the computer account. */
    method Ldap1Step(i: nat, a: Answer) returns (ok: bool)
      requires Consistent() && waiting == ForCldap && i < 14
      modifies this`state, this`waiting, this`trace, this`userAccountControl
      ensures Consistent() && ok == StepStatus(a.ldap, i).Good?
      ensures ok ==> waiting == ForCldap && trace + Ldap1Tried(a.ldap, i + 1) == old(trace) + Ldap1Tried(a.ldap, i)
      ensures ok ==> userAccountControl == if i == 9 then accountFlags else old(userAccountControl)
      ensures !ok ==> Now() == Enter(Say(old(Now()), Ldap1Tried(a.ldap, i)), Failing(StepStatus(a.ldap, i)))
    {
      JoinOrder.SaysOneByOne(Now(), Ldap1(i), Ldap1Tried(a.ldap, i + 1));
      assert [Ldap1(i)] + [] == [Ldap1(i)];
      trace := trace + [Ldap1(i)];
      ok := StepStatus(a.ldap, i).Good?;
      if !ok {
        Fail(StepStatus(a.ldap, i));
      } else if i == 9 {
        userAccountControl := accountFlags;
      }
    }

    /** becomeDC_drsuapi_connect_send; the third connection reuses the binding of the second. */
    method SendConnect(pipe: nat, a: Answer)
      requires Consistent() && state.InProgress? && userAccountControl == accountFlags
      modifies this`state, this`waiting, this`trace
      ensures Consistent() && Now() == Enter(old(Now()), Connecting(pipe, a))
    {
      if pipe != 3 && a.binding.Bad? {
        Fail(a.binding);
        return;
      }
      trace := trace + [SentConnect(pipe)];
      waiting := ForConnect(pipe);
    }

    /** becomeDC_recv_cldap and the LDAP steps of becomeDC_connect_ldap1. */
    method RecvCldap(a: Answer)
      requires Consistent() && waiting == ForCldap
      modifies this`state, this`waiting, this`trace, this`userAccountControl
      ensures Consistent() && Now() == Step(old(Now()), a)
    {
      JoinOrder.SaysNothing(Now());
      if a.transport.Bad? {
        Fail(a.transport);
        return;
      }
      ghost var end, goal := Connecting(1, a), Now().trace + Ldap1Tried(a.ldap, 0);
      for i := 0 to 14
        invariant Consistent() && waiting == ForCldap && (i > 9 ==> userAccountControl == accountFlags)
        invariant trace + Ldap1Tried(a.ldap, i) == goal
        invariant Ldap1Outcome(a.ldap, i, end) == Ldap1Outcome(a.ldap, 0, end)
      {
        var ok := Ldap1Step(i, a);
        if !ok {
          return;
        }
      }
      assert trace == goal;
      SendConnect(1, a);
    }

    /** becomeDC_drsuapi_pull_partition_send */
    method SendChanges(nc: Nc)
      requires Consistent() && state.InProgress? && userAccountControl == accountFlags
      modifies this`waiting, this`trace
      ensures Consistent() && Now() == Enter(old(Now()), Waits(ForChanges(nc)))
    {
      var r := parts.Of(nc).NextRequest(v8);
      trace := trace + [SentGetChanges(nc, r.level, r.mark, r.invocationId, accountFlags)];
      waiting := ForChanges(nc);
    }

    method RecvConnect(a: Answer)
      requires Consistent() && waiting.ForConnect?
      modifies this`state, this`waiting, this`trace
      ensures Consistent() && Now() == Step(old(Now()), a)
    {
      JoinOrder.SaysNothing(Now());
      if a.transport.Bad? {
        Fail(a.transport);
        return;
      }
      var pipe := waiting.pipe;
      if pipe == 3 {
        SendChanges(Schema);
      } else {
        trace := trace + [SentBind(pipe)];
        waiting := ForBind(pipe);
      }
    }

    method SendAddEntry()
      requires Consistent() && state.InProgress? && userAccountControl == accountFlags
      modifies this`waiting, this`trace
      ensures Consistent() && Now() == Enter(old(Now()), Waits(ForAddEntry))
    {
      trace := trace + [SentAddEntry];
      waiting := ForAddEntry;
    }

    method RecvBind(a: Answer)
      requires Consistent() && waiting.ForBind?
      modifies this`state, this`waiting, this`trace, this`v8
      ensures Consistent() && Now() == Step(old(Now()), a)
    {
      if a.transport.Bad? || a.result.Bad? {
        JoinOrder.SaysNothing(Now());
        Fail(if a.transport.Bad? then a.transport else a.result);
        return;
      }
      var pipe, offered := waiting.pipe, (a.bindInfo.Info24? || a.bindInfo.Info28?) && a.bindInfo.v8;
      trace := trace + [GotBind(pipe, offered)];
      if pipe == 2 {
        v8 := offered;
      }
      JoinOrder.SaysNothing(Now());
      if pipe == 1 {
        SendAddEntry();
      } else {
        SendConnect(3, a);
      }
    }

    method RecvAddEntry(a: Answer)
      requires Consistent() && waiting == ForAddEntry
      modifies this`state, this`waiting, this`trace, this`ntdsGuid
      ensures Consistent() && Now() == Step(old(Now()), a)
    {
      if a.transport.Bad? || a.result.Bad? {
        JoinOrder.SaysNothing(Now());
        Fail(if a.transport.Bad? then a.transport else a.result);
        return;
      }
      var (guid, status) := AddedObject(a.addEntry);
      if guid.None? {
        JoinOrder.SaysNothing(Now());
        Fail(status);
        return;
      }
      trace := trace + [GotAddEntry(guid.value)];
      ntdsGuid := guid.value;
      JoinOrder.SaysNothing(Now());
      SendConnect(2, a);
    }

    /** becomeDC_ldap2_modify_computer, when the flags are not right already. */
    method ModifyComputer(status: Status) returns (r: Status)
      requires userAccountControl == accountFlags
      modifies this`trace, this`accountFlags, this`userAccountControl
      ensures r == status && trace == old(trace) + [Ldap2(1)]
      ensures accountFlags == userAccountControl == if status.Good? then DC_FLAGS else old(accountFlags)
    {
      r := status;
      trace := trace + [Ldap2(1)];
      if status.Good? {
        accountFlags := DC_FLAGS;
        userAccountControl := DC_FLAGS;
      }
    }

    /** becomeDC_connect_ldap2: connect, set the account flags unless they are right, move the account. */
    method ConnectLdap2(a: Answer)
      requires Consistent() && state.InProgress? && userAccountControl == accountFlags
      modifies this`state, this`waiting, this`trace, this`accountFlags, this`userAccountControl
      ensures Consistent()
      ensures var flags := if StepStatus(a.ldap, 0).Good? && StepStatus(a.ldap, 1).Good? then DC_FLAGS else old(accountFlags);
              Now() == Enter(Say(old(Now()), Ldap2Tried(a.ldap, old(accountFlags))).(flags := flags), Ldap2Outcome(a.ldap, old(accountFlags)))
    {
      trace := trace + [Ldap2(0)];
      var status := StepStatus(a.ldap, 0);
      if status.Good? && userAccountControl != DC_FLAGS {
        status := ModifyComputer(StepStatus(a.ldap, 1));
      }
      if status.Good? {
        trace := trace + [Ldap2(2)];  // becomeDC_ldap2_move_computer
        status := StepStatus(a.ldap, 2);
      }
      assert trace == old(trace) + Ldap2Tried(a.ldap, old(accountFlags));
      if status.Bad? {
        Fail(status);
      } else {
        SendChanges(Domain);
      }
    }

    /** becomeDC_drsuapi_update_refs_send */
    method SendRefs(nc: Nc)
      requires Consistent() && state.InProgress? && userAccountControl == accountFlags
      modifies this`waiting, this`trace
      ensures Consistent() && Now() == Enter(old(Now()), Waits(ForRefs(nc)))
    {
      trace := trace + [SentUpdateRefs(nc, ntdsGuid)];
      waiting := ForRefs(nc);
    }

    /** What follows a page: an error, the next request, or the next phase. */
    method GoOn(a: Answer, w: WError)
      requires Consistent() && waiting.ForChanges? && a.transport.Good?
      requires w == Taken(a)
      modifies this`state, this`waiting, this`trace, this`accountFlags, this`userAccountControl
      ensures Consistent() && Now() == Conclude(old(Now()), a)
    {
      if w != Ok {
        JoinOrder.SaysNothing(Now());
        Fail(Bad(match w case Error(code) => code case BadNetResp => INVALID_NETWORK_RESPONSE));
        return;
      }
      var nc := waiting.nc;
      trace := trace + [GotChanges(nc, a.mark, a.invocationId)];
      JoinOrder.SaysNothing(Now());
      if MorePages(a) {
        SendChanges(nc);
      } else {
        match nc {
          case Schema => SendChanges(Config);
          case Config => ConnectLdap2(a);
          case Domain => SendRefs(Schema);
        }
      }
    }

    /** The page goes to the list of its partition. */
    method TakePage(a: Answer) returns (w: WError)
      requires Valid() && waiting.ForChanges? && a.transport.Good?
      modifies parts.Repr
      ensures Valid() && fresh(parts.Repr - old(parts.Repr)) && w == Taken(a)
      ensures Now() == old(Now()).(knows := Learn(old(Now()).knows, waiting, a))
    {
      w := parts.AbsorbInto(waiting.nc, a);
    }

    method RecvChanges(a: Answer)
      requires Valid() && waiting.ForChanges?
      modifies this, parts.Repr
      ensures Valid() && fresh(parts.Repr - old(parts.Repr))
      ensures Now() == Step(old(Now()), a)
    {
      if a.transport.Bad? {
        JoinOrder.SaysNothing(Now());
        Fail(a.transport);
      } else {
        var w := TakePage(a);
        GoOn(a, w);
      }
      assert parts.Valid();
    }

    method RecvRefs(a: Answer)
      requires Consistent() && waiting.ForRefs?
      modifies this`state, this`waiting, this`trace
      ensures Consistent() && Now() == Step(old(Now()), a)
    {
      JoinOrder.SaysNothing(Now());
      if a.transport.Bad? || a.result.Bad? {
        Fail(if a.transport.Bad? then a.transport else a.result);
        return;
      }
      match waiting.nc {
        case Schema => SendRefs(Config);
        case Config => SendRefs(Domain);
        case Domain => Fail(Bad(NOT_IMPLEMENTED));
      }
    }

    /** A reply other than a page. */
    method RecvOther(a: Answer)
      requires Consistent() && waiting != ForNothing && !waiting.ForChanges?
      modifies this
      ensures Consistent() && Now() == Step(old(Now()), a)
    {
      match waiting {
        case ForCldap => RecvCldap(a);
        case ForConnect(_) => RecvConnect(a);
        case ForBind(_) => RecvBind(a);
        case ForAddEntry => RecvAddEntry(a);
        case ForRefs(_) => RecvRefs(a);
      }
    }

    /** The arrival of the reply that is awaited. */
    method Deliver(a: Answer)
      requires Valid() && waiting != ForNothing
      modifies this, parts.Repr
      ensures Valid() && fresh(parts.Repr - old(parts.Repr))
      ensures Now() == Step(old(Now()), a)
    {
      if waiting.ForChanges? {
        RecvChanges(a);
      } else {
        RecvOther(a);
        assert parts.Valid();
      }
    }

    /** A reply that may come when none is awaited any more. */
    method Take(a: Answer)
      requires Valid()
      modifies this, parts.Repr
      ensures Valid() && fresh(parts.Repr - old(parts.Repr))
      ensures Now() == Step(old(Now()), a)
    {
      if waiting != ForNothing {
        Deliver(a);
      }
    }
  }

  lemma PlayMore(flags: nat, answers: seq<Answer>, i: nat)
    requires i < |answers|
    ensures Play(flags, answers[..i + 1]) == Step(Play(flags, answers[..i]), answers[i])
  {
    assert answers[..i + 1][..i] == answers[..i];
  }

  /**
   A whole run against any server. Where it stands, what it has kept, and every event of its trace are what the
   replies determine; the trace is orderly, and the run is never done.
   */
  method Run(accountFlags: nat, answers: seq<Answer>) returns (j: Join)
    ensures fresh(j) && j.Valid()
    ensures j.Now() == Play(accountFlags, answers)
    ensures Orderly(j.trace) && j.state != Done
  {
    j := new Join(accountFlags);
    for i := 0 to |answers|
      invariant fresh(j) && fresh(j.parts.Repr)
      invariant j.Valid() && j.Now() == Play(accountFlags, answers[..i])
    {
      PlayMore(accountFlags, answers, i);
      j.Take(answers[i]);
    }
    assert answers[..|answers|] == answers;
    JoinOrder.EveryRunIsOrderly(accountFlags, answers);
  }

  /**
   A run whose pages come from three replication sources: once it updates references, the three linked lists are
   exactly the logs of the three sources.
   */
  method RunAgainst(accountFlags: nat, answers: seq<Answer>, ghost logs: JoinReplies.Logs) returns (j: Join)
    requires JoinReplies.Proper(logs) && JoinReplies.ServedBy(accountFlags, answers, logs)
    ensures fresh(j) && j.Valid() && j.Now() == Play(accountFlags, answers)
    ensures (exists nc :: RefsSent(j.trace, nc)) ==>
              forall nc :: Objects(j.parts.Of(nc).spine) == LogObjects(JoinReplies.LogOf(logs, nc))
  {
    j := Run(accountFlags, answers);
    ghost var s := j.Now();
    if exists nc :: RefsSent(s.trace, nc) {
      JoinReplies.ListsComplete(accountFlags, answers, logs);
      forall nc
        ensures Objects(j.parts.Of(nc).spine) == LogObjects(JoinReplies.LogOf(logs, nc))
      {
        j.KnowsLists(nc);
      }
    }
  }
}
