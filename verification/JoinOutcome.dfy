/** Where each reply takes a domain-join run: which reply it waits for next, or how it ends. */
module JoinOutcome {
  import opened Wrappers
  import opened ReplicationPull
  import opened JoinTrace

  datatype Status = Good | Bad(code: nat)

  const NOT_IMPLEMENTED: nat := 0xC0000002
  const INVALID_NETWORK_RESPONSE: nat := 0xC00000C3

  datatype RunState = InProgress | Done | InError(status: nat) | Aborted

  /** The reply that the run is waiting for. */
  datatype Wait = ForCldap | ForConnect(pipe: nat) | ForBind(pipe: nat) | ForAddEntry | ForChanges(nc: Nc) | ForRefs(nc: Nc) | ForNothing

  datatype BindInfo = NoInfo | Info24(v8: bool) | Info28(v8: bool) | OtherLength

  datatype AddEntryOut =
    | Ctr3(count: nat, guid: Guid, errorLevel: nat, error: Option<Status>)
    | Ctr2(count: nat, guid: Guid, status: Status)
    | OtherOut

  /** Everything an arbitrary server may answer; each continuation looks at its own part. */
  datatype Answer = Answer(
    transport: Status,         // of the call itself
    result: Status,            // of the remote operation
    ldap: seq<Status>,         // of the LDAP steps that follow
    binding: Status,           // of parsing the binding string for the next connection
    bindInfo: BindInfo,
    addEntry: AddEntryOut,
    form: ReplyForm,           // of the reply to GetNCChanges
    sourceDsaGuid: Guid,
    invocationId: Guid,
    mark: Mark,
    first: Obj,                // the page: its first object, and the others
    others: seq<Obj>)

  function Page(a: Answer): seq<Obj> {
    [a.first] + a.others
  }

  function StepStatus(ldap: seq<Status>, i: nat): Status {
    if i < |ldap| then ldap[i] else Good
  }

  /** Whether the extensions that a bind reply names include version 8 requests. */
  predicate Offered(info: BindInfo) {
    (info.Info24? || info.Info28?) && info.v8
  }

  /** The object guid that a reply to AddEntry carries, or the status it fails with. */
  function AddedObject(o: AddEntryOut): (r: (Option<Guid>, Status))
    ensures r.0.Some? <==> !o.OtherOut? && o.count == 1
    ensures r.0.Some? ==> r.0.value == o.guid
  {
    match o
    case Ctr3(count, guid, errorLevel, error) =>
      if count == 1 then (Some(guid), Good)
      else if errorLevel != 1 || error.None? then (None, Bad(INVALID_NETWORK_RESPONSE))
      else (None, error.value)
    case Ctr2(count, guid, status) =>
      if count == 1 then (Some(guid), Good) else (None, status)
    case OtherOut => (None, Bad(INVALID_NETWORK_RESPONSE))
  }

  datatype Outcome = Waits(next: Wait) | Fails(code: nat) | Aborts

  /** composite_error asserts that it is not given a success. */
  function Failing(status: Status): Outcome {
    if status.Bad? then Fails(status.code) else Aborts
  }

  /** The fourteen LDAP steps of the first LDAP connection, from the given one on; the first bad one ends the run. */
  function Ldap1Outcome(ldap: seq<Status>, step: nat, end: Outcome): Outcome
    decreases 14 - step
  {
    if step >= 14 then end
    else if StepStatus(ldap, step).Bad? then Fails(StepStatus(ldap, step).code)
    else Ldap1Outcome(ldap, step + 1, end)
  }

  /** Connect, set the account flags unless they are right, move the account. */
  function Ldap2Outcome(ldap: seq<Status>, flags: nat): Outcome {
    if StepStatus(ldap, 0).Bad? then Fails(StepStatus(ldap, 0).code)
    else if flags != DC_FLAGS && StepStatus(ldap, 1).Bad? then Fails(StepStatus(ldap, 1).code)
    else if StepStatus(ldap, 2).Bad? then Fails(StepStatus(ldap, 2).code)
    else Waits(ForChanges(Domain))
  }

  function Connecting(pipe: nat, a: Answer): Outcome {
    if pipe != 3 && a.binding.Bad? then Fails(a.binding.code) else Waits(ForConnect(pipe))
  }

  predicate MorePages(a: Answer) {
    a.mark.tmpHighestUsn > a.mark.highestUsn
  }

  /** Where a reply leads, flags being those that the computer account holds. */
  function Next(w: Wait, flags: nat, a: Answer): Outcome
    requires w != ForNothing
  {
    if a.transport.Bad? then Fails(a.transport.code)
    else if !w.ForCldap? && !w.ForConnect? && a.result.Bad? then Fails(a.result.code)
    else match w
      case ForCldap => Ldap1Outcome(a.ldap, 0, Connecting(1, a))
      case ForConnect(pipe) => Waits(if pipe == 3 then ForChanges(Schema) else ForBind(pipe))
      case ForBind(pipe) => if pipe == 1 then Waits(ForAddEntry) else Connecting(3, a)
      case ForAddEntry =>
        var (guid, status) := AddedObject(a.addEntry);
        if guid.Some? then Connecting(2, a) else Failing(status)
      case ForChanges(nc) =>
        if !Understands(a.form) then Fails(INVALID_NETWORK_RESPONSE)
        else if MorePages(a) then Waits(ForChanges(nc))
        else (match nc
              case Schema => Waits(ForChanges(Config))
              case Config => Ldap2Outcome(a.ldap, flags)
              case Domain => Waits(ForRefs(Schema)))
      case ForRefs(nc) =>
        match nc
        case Schema => Waits(ForRefs(Config))
        case Config => Waits(ForRefs(Domain))
        case Domain => Fails(NOT_IMPLEMENTED)
  }

  /** The account flags after a reply: set between the config and the domain partition. */
  function NextFlags(w: Wait, flags: nat, a: Answer): nat {
    if w == ForChanges(Config) && a.transport.Good? && a.result.Good? && Understands(a.form) && !MorePages(a)
       && StepStatus(a.ldap, 0).Good? && StepStatus(a.ldap, 1).Good?
    then DC_FLAGS else flags
  }

  // ----- what a reply teaches, and what is sent after it -----

  /** What has been received of one partition. */
  datatype Part = Part(sourceDsaGuid: Guid, invocationId: Guid, mark: Mark, objects: seq<Obj>)

  const NOTHING: Part := Part(0, 0, Mark(0, 0), [])

  /** A page replaces watermark and ids, and its objects come last. */
  function Extended(p: Part, a: Answer): Part {
    Part(a.sourceDsaGuid, a.invocationId, a.mark, p.objects + Page(a))
  }

  /** What the run keeps of the replies so far. */
  datatype Knowledge = Knowledge(v8: bool, guid: Guid, schema: Part, config: Part, domain: Part)

  function PartOf(k: Knowledge, nc: Nc): Part {
    match nc
    case Schema => k.schema
    case Config => k.config
    case Domain => k.domain
  }

  function WithPart(k: Knowledge, nc: Nc, p: Part): Knowledge {
    match nc
    case Schema => k.(schema := p)
    case Config => k.(config := p)
    case Domain => k.(domain := p)
  }

  /** The call worked, and so did the remote operation where there is one. */
  predicate Accepted(w: Wait, a: Answer) {
    a.transport.Good? && (w.ForCldap? || w.ForConnect? || a.result.Good?)
  }

  /** What the run keeps of a reply. */
  function Learn(k: Knowledge, w: Wait, a: Answer): Knowledge {
    if !Accepted(w, a) then k
    else match w
      case ForBind(pipe) => if pipe == 2 then k.(v8 := Offered(a.bindInfo)) else k
      case ForAddEntry => if AddedObject(a.addEntry).0.Some? then k.(guid := AddedObject(a.addEntry).0.value) else k
      case ForChanges(nc) =>
        if Understands(a.form) then WithPart(k, nc, Extended(PartOf(k, nc), a)) else k
      case _ => k
  }

  /** What a reply is recorded as. */
  function Heard(w: Wait, a: Answer): Trace {
    if !Accepted(w, a) then []
    else match w
      case ForBind(pipe) => [GotBind(pipe, Offered(a.bindInfo))]
      case ForAddEntry => if AddedObject(a.addEntry).0.Some? then [GotAddEntry(AddedObject(a.addEntry).0.value)] else []
      case ForChanges(nc) => if Understands(a.form) then [GotChanges(nc, a.mark, a.invocationId)] else []
      case _ => []
  }

  function Ldap1Tried(ldap: seq<Status>, step: nat): Trace
    decreases 14 - step
  {
    if step >= 14 then []
    else [Ldap1(step)] + (if StepStatus(ldap, step).Bad? then [] else Ldap1Tried(ldap, step + 1))
  }

  function Ldap2Tried(ldap: seq<Status>, flags: nat): Trace {
    [Ldap2(0)]
    + if StepStatus(ldap, 0).Bad? then []
      else if flags == DC_FLAGS then [Ldap2(2)]
      else [Ldap2(1)] + if StepStatus(ldap, 1).Bad? then [] else [Ldap2(2)]
  }

  /** The LDAP steps attempted after a reply. */
  function Tried(w: Wait, flags: nat, a: Answer): Trace {
    if !Accepted(w, a) then []
    else if w == ForCldap then Ldap1Tried(a.ldap, 0)
    else if w == ForChanges(Config) && Understands(a.form) && !MorePages(a) then Ldap2Tried(a.ldap, flags)
    else []
  }

  /** The request after which a reply is awaited. */
  function Asking(w: Wait, k: Knowledge, flags: nat): Event {
    match w
    case ForCldap => SentCldap
    case ForConnect(pipe) => SentConnect(pipe)
    case ForBind(pipe) => SentBind(pipe)
    case ForAddEntry => SentAddEntry
    case ForChanges(nc) => SentGetChanges(nc, if k.v8 then 8 else 5, PartOf(k, nc).mark, PartOf(k, nc).invocationId, flags)
    case ForRefs(nc) => SentUpdateRefs(nc, k.guid)
    case ForNothing => Event.Failed
  }

  /** Where a run stands: what it waits for or how it ended, the account flags in the directory, and what has happened. */
  datatype Stage = Stage(outcome: Outcome, flags: nat, knows: Knowledge, trace: Trace)

  function Closing(o: Outcome, k: Knowledge, flags: nat): Trace {
    match o
    case Waits(w) => [Asking(w, k, flags)]
    case Fails(_) => [Event.Failed]
    case Aborts => []
  }

  /** The run goes on to an outcome, sending the request or recording the failure that belongs to it. */
  function Enter(s: Stage, o: Outcome): Stage {
    s.(outcome := o, trace := s.trace + Closing(o, s.knows, s.flags))
  }

  function Say(s: Stage, events: Trace): Stage {
    s.(trace := s.trace + events)
  }

  predicate Going(o: Outcome) {
    o.Waits? && o.next != ForNothing
  }

  /** The rest of a step, once the run has kept what it keeps of the reply. */
  function Conclude(s: Stage, a: Answer): Stage
    requires Going(s.outcome)
  {
    var w := s.outcome.next;
    var tried := Say(Say(s, Heard(w, a)), Tried(w, s.flags, a)).(flags := NextFlags(w, s.flags, a));
    Enter(tried, Next(w, s.flags, a))
  }

  function Step(s: Stage, a: Answer): Stage {
    if Going(s.outcome) then Conclude(s.(knows := Learn(s.knows, s.outcome.next, a)), a) else s
  }

  function Start(flags: nat): Stage {
    Stage(Waits(ForCldap), flags, Knowledge(false, 0, NOTHING, NOTHING, NOTHING), [SentCldap])
  }

  /** A whole run: where the replies take it from its CLDAP request. */
  function Play(flags: nat, answers: seq<Answer>): Stage {
    if answers == [] then Start(flags)
    else Step(Play(flags, answers[..|answers| - 1]), answers[|answers| - 1])
  }
}
