/** What a domain-join run sends and receives, and the order that every run must keep. */
module JoinTrace {
  import opened Wrappers
  import opened ReplicationPull

  datatype Nc = Schema | Config | Domain

  /** UF_SERVER_TRUST_ACCOUNT | UF_TRUSTED_FOR_DELEGATION */
  const DC_FLAGS: nat := 0x2000 + 0x80000

  datatype Event =
    | SentCldap
    | Ldap1(step: nat)
    | SentConnect(pipe: nat)
    | SentBind(pipe: nat)
    | GotBind(pipe: nat, v8: bool)
    | SentAddEntry
    | GotAddEntry(guid: Guid)
    | SentGetChanges(nc: Nc, level: nat, mark: Mark, invocationId: Guid, accountFlags: nat)
    | GotChanges(nc: Nc, mark: Mark, invocationId: Guid)
    | Ldap2(step: nat)
    | SentUpdateRefs(nc: Nc, guid: Guid)
    | Failed

  type Trace = seq<Event>

  function Last(t: Trace): Option<Event> {
    if t == [] then None else Some(t[|t| - 1])
  }

  predicate HasFailed(t: Trace) {
    exists i :: 0 <= i < |t| && t[i].Failed?
  }

  /** The watermark and invocation id of the latest reply for a partition, zero before the first. */
  function Position(t: Trace, nc: Nc): (Mark, Guid) {
    if t == [] then (Mark(0, 0), 0)
    else
      var e := t[|t| - 1];
      if e.GotChanges? && e.nc == nc then (e.mark, e.invocationId) else Position(t[..|t| - 1], nc)
  }

  /** Whether the latest reply for a partition was its last page. */
  predicate Finished(t: Trace, nc: Nc) {
    t != []
    && (var e := t[|t| - 1];
        if e.GotChanges? && e.nc == nc then e.mark.tmpHighestUsn <= e.mark.highestUsn else Finished(t[..|t| - 1], nc))
  }

  /** The request level that the second connection's bind settled. */
  function Level(t: Trace): Option<nat> {
    if t == [] then None
    else
      var e := t[|t| - 1];
      if e.GotBind? && e.pipe == 2 then Some(if e.v8 then 8 else 5) else Level(t[..|t| - 1])
  }

  function Added(t: Trace): Option<Guid> {
    if t == [] then None
    else
      var e := t[|t| - 1];
      if e.GotAddEntry? then Some(e.guid) else Added(t[..|t| - 1])
  }

  predicate RefsSent(t: Trace, nc: Nc) {
    exists i :: 0 <= i < |t| && t[i].SentUpdateRefs? && t[i].nc == nc
  }

  predicate PartitionsPulled(t: Trace, nc: Nc) {
    match nc
    case Schema => true
    case Config => Finished(t, Schema)
    case Domain => Finished(t, Schema) && Finished(t, Config)
  }

  /** Which event may directly follow which. */
  predicate Follows(prev: Option<Event>, e: Event) {
    match e
    case SentCldap => prev == None
    case Ldap1(step) => step < 14 && prev == Some(if step == 0 then SentCldap else Ldap1(step - 1))
    case SentConnect(pipe) =>
      && prev.Some?
      && if pipe == 1 then prev.value == Ldap1(13)
         else if pipe == 2 then prev.value.GotAddEntry?
         else pipe == 3 && prev.value.GotBind? && prev.value.pipe == 2
    case SentBind(pipe) => (pipe == 1 || pipe == 2) && prev == Some(SentConnect(pipe))
    case GotBind(pipe, _) => prev == Some(SentBind(pipe))
    case SentAddEntry => prev.Some? && prev.value.GotBind? && prev.value.pipe == 1
    case GotAddEntry(_) => prev == Some(SentAddEntry)
    case SentGetChanges(nc, _, _, _, _) =>
      && prev.Some?
      && ((prev.value.GotChanges? && prev.value.nc == nc)
          || (nc == Schema && prev.value == SentConnect(3))
          || (nc == Config && prev.value.GotChanges? && prev.value.nc == Schema)
          || (nc == Domain && prev.value == Ldap2(2)))
    case GotChanges(nc, _, _) => prev.Some? && prev.value.SentGetChanges? && prev.value.nc == nc
    case Ldap2(step) =>
      && prev.Some?
      && if step == 0 then prev.value.GotChanges? && prev.value.nc == Config
         else if step == 1 then prev.value == Ldap2(0)
         else step == 2 && (prev.value == Ldap2(0) || prev.value == Ldap2(1))
    case SentUpdateRefs(nc, _) =>
      && prev.Some?
      && if nc == Schema then prev.value.GotChanges? && prev.value.nc == Domain
         else prev.value.SentUpdateRefs? && prev.value.nc == (if nc == Config then Schema else Config)
    case Failed => prev.Some?
  }

  /** What may come after what has happened so far. */
  predicate Allowed(t: Trace, e: Event) {
    && !HasFailed(t) && Follows(Last(t), e)
    && match e
       case GotBind(pipe, v8) => pipe == 2 ==> Level(t) == None
       case GotAddEntry(guid) => Added(t) == None
       case SentGetChanges(nc, level, mark, invocationId, flags) =>
         && Level(t) == Some(level) && (mark, invocationId) == Position(t, nc)
         && !Finished(t, nc) && PartitionsPulled(t, nc)
         && (nc == Domain ==> flags == DC_FLAGS)
       case SentUpdateRefs(nc, guid) =>
         && Added(t) == Some(guid) && !RefsSent(t, nc)
         && PartitionsPulled(t, Domain) && Finished(t, Domain)
         && (nc != Schema ==> RefsSent(t, Schema)) && (nc == Domain ==> RefsSent(t, Config))
       case _ => true
  }

  predicate Orderly(t: Trace) {
    t == [] || (Orderly(t[..|t| - 1]) && Allowed(t[..|t| - 1], t[|t| - 1]))
  }

  /** How every observation changes with one more event. */
  lemma OneMore(t: Trace, e: Event)
    ensures Orderly(t + [e]) <==> Orderly(t) && Allowed(t, e)
    ensures HasFailed(t + [e]) <==> HasFailed(t) || e.Failed?
    ensures forall nc :: Position(t + [e], nc) ==
                         if e.GotChanges? && e.nc == nc then (e.mark, e.invocationId) else Position(t, nc)
    ensures forall nc :: Finished(t + [e], nc) ==
                         if e.GotChanges? && e.nc == nc then e.mark.tmpHighestUsn <= e.mark.highestUsn else Finished(t, nc)
    ensures Level(t + [e]) == if e.GotBind? && e.pipe == 2 then Some(if e.v8 then 8 else 5) else Level(t)
    ensures Added(t + [e]) == if e.GotAddEntry? then Some(e.guid) else Added(t)
    ensures forall nc :: RefsSent(t + [e], nc) <==> RefsSent(t, nc) || (e.SentUpdateRefs? && e.nc == nc)
    ensures Last(t + [e]) == Some(e)
  {
    var u := t + [e];
    assert u[..|t|] == t && u[|t|] == e;
    assert forall i :: 0 <= i < |t| ==> u[i] == t[i];
  }

  /** In an orderly trace every event was allowed where it happened. */
  lemma {:induction false} AllowedAt(t: Trace, i: nat)
    requires Orderly(t) && i < |t|
    ensures Orderly(t[..i]) && Allowed(t[..i], t[i])
    decreases |t|
  {
    if i < |t| - 1 {
      AllowedAt(t[..|t| - 1], i);
      assert t[..|t| - 1][..i] == t[..i];
    }
  }

  lemma {:induction false} FinishedMeans(t: Trace, nc: Nc) returns (j: nat)
    requires Finished(t, nc)
    ensures j < |t| && t[j].GotChanges? && t[j].nc == nc && t[j].mark.tmpHighestUsn <= t[j].mark.highestUsn
  {
    var e := t[|t| - 1];
    if e.GotChanges? && e.nc == nc {
      j := |t| - 1;
    } else {
      j := FinishedMeans(t[..|t| - 1], nc);
    }
  }

  lemma AnsweredRequest(t: Trace, i: nat, nc: Nc)
    requires Orderly(t) && i <= |t| && Finished(t[..i], nc)
    requires forall k :: i <= k < |t| ==> !(t[k].SentGetChanges? && t[k].nc == nc)
    ensures !(Last(t).Some? && Last(t).value.SentGetChanges? && Last(t).value.nc == nc)
  {
    if i == |t| && Last(t).Some? && Last(t).value.SentGetChanges? {
      assert t[..i] == t;
      AllowedAt(t, |t| - 1);
    }
  }

  /** A partition that is finished is never asked for again. */
  lemma {:induction false} FinishedStays(t: Trace, i: nat, nc: Nc)
    requires Orderly(t) && i <= |t| && Finished(t[..i], nc)
    ensures Finished(t, nc)
    ensures forall k :: i <= k < |t| ==> !(t[k].SentGetChanges? && t[k].nc == nc) && !(t[k].GotChanges? && t[k].nc == nc)
    decreases |t|
  {
    if i == |t| {
      assert t[..i] == t;
    } else {
      var n := |t| - 1;
      var before := t[..n];
      assert before[..i] == t[..i];
      FinishedStays(before, i, nc);
      var e := t[n];
      assert Allowed(before, e);
      if e.GotChanges? && e.nc == nc {
        // the request it answers would have come when the partition was finished already
        AnsweredRequest(before, i, nc);
      }
    }
  }

  /** The domain partition is asked for only when the other two are complete and the account has its flags. */
  lemma DomainComesLast(t: Trace, i: nat) returns (s: nat, c: nat)
    requires Orderly(t) && i < |t| && t[i].SentGetChanges? && t[i].nc == Domain
    ensures s < i && t[s].GotChanges? && t[s].nc == Schema && t[s].mark.tmpHighestUsn <= t[s].mark.highestUsn
    ensures c < i && t[c].GotChanges? && t[c].nc == Config && t[c].mark.tmpHighestUsn <= t[c].mark.highestUsn
    ensures t[i].accountFlags == DC_FLAGS
    ensures forall k :: i <= k < |t| && t[k].SentGetChanges? ==> t[k].nc == Domain
  {
    AllowedAt(t, i);
    s := FinishedMeans(t[..i], Schema);
    c := FinishedMeans(t[..i], Config);
    FinishedStays(t, i, Schema);
    FinishedStays(t, i, Config);
  }

  lemma {:induction false} LevelStays(t: Trace, i: nat)
    requires Orderly(t) && i <= |t| && Level(t[..i]).Some?
    ensures Level(t) == Level(t[..i])
    decreases |t|
  {
    if i == |t| {
      assert t[..i] == t;
    } else {
      var before := t[..|t| - 1];
      assert before[..i] == t[..i];
      LevelStays(before, i);
    }
  }

  /** All change requests of a run are at one level. */
  lemma OneRequestLevel(t: Trace, i: nat, j: nat)
    requires Orderly(t) && i <= j < |t| && t[i].SentGetChanges? && t[j].SentGetChanges?
    ensures t[i].level == t[j].level
  {
    AllowedAt(t, i);
    AllowedAt(t, j);
    assert t[..j][..i] == t[..i];
    LevelStays(t[..j], i);
  }

  lemma {:induction false} NoneAdded(t: Trace)
    requires Added(t) == None
    ensures forall j :: 0 <= j < |t| ==> !t[j].GotAddEntry?
  {
    if t != [] {
      NoneAdded(t[..|t| - 1]);
      forall j | 0 <= j < |t|
        ensures !t[j].GotAddEntry?
      {
        if j < |t| - 1 {
          assert t[j] == t[..|t| - 1][j];
        }
      }
    }
  }

  lemma {:induction false} AddedMeans(t: Trace)
    requires Orderly(t) && Added(t).Some?
    ensures exists j :: 0 <= j < |t| && t[j] == GotAddEntry(Added(t).value)
    ensures forall j :: 0 <= j < |t| && t[j].GotAddEntry? ==> t[j].guid == Added(t).value
    decreases |t|
  {
    var n := |t| - 1;
    var before := t[..n];
    if t[n].GotAddEntry? {
      assert Added(before) == None;
      NoneAdded(before);
    } else {
      AddedMeans(before);
      var j :| 0 <= j < n && before[j] == GotAddEntry(Added(before).value);
      assert t[j] == before[j];
    }
    forall j | 0 <= j < |t| && t[j].GotAddEntry?
      ensures t[j].guid == Added(t).value
    {
      if j < n {
        assert before[j] == t[j];
      }
    }
  }

  /** UpdateRefs names the object that AddEntry created, after everything has been pulled. */
  lemma RefsNameTheNewDsa(t: Trace, i: nat)
    requires Orderly(t) && i < |t| && t[i].SentUpdateRefs?
    ensures exists j :: 0 <= j < i && t[j] == GotAddEntry(t[i].guid)
    ensures forall k :: i <= k < |t| ==> !t[k].SentGetChanges?
  {
    AllowedAt(t, i);
    AddedMeans(t[..i]);
    var j :| 0 <= j < i && t[..i][j] == GotAddEntry(t[i].guid);
    assert t[j] == t[..i][j];
    FinishedStays(t, i, Schema);
    FinishedStays(t, i, Config);
    FinishedStays(t, i, Domain);
  }

  lemma FailedEarlier(t: Trace, i: nat)
    requires i < |t|
    ensures t[i].Failed? && i < |t| - 1 ==> HasFailed(t[..|t| - 1])
  {
    if i < |t| - 1 {
      assert t[..|t| - 1][i] == t[i];
    }
  }

  /** Nothing is sent, or received, after an error. */
  lemma NothingAfterFailure(t: Trace, i: nat)
    requires Orderly(t) && i < |t| && t[i].Failed?
    ensures i == |t| - 1
  {
    FailedEarlier(t, i);
  }

  /** The reply at j is the last one for its partition before i. */
  predicate LatestReply(t: Trace, j: nat, i: nat, nc: Nc) {
    && j < i <= |t| && t[j].GotChanges? && t[j].nc == nc
    && forall k :: j < k < i ==> !(t[k].GotChanges? && t[k].nc == nc)
  }

  lemma {:induction false} PositionMeans(t: Trace, nc: Nc)
    ensures (Position(t, nc) == (Mark(0, 0), 0) && forall k :: 0 <= k < |t| ==> !(t[k].GotChanges? && t[k].nc == nc))
            || exists j :: 0 <= j < |t| && LatestReply(t, j, |t|, nc) && Position(t, nc) == (t[j].mark, t[j].invocationId)
  {
    if t != [] {
      var n := |t| - 1;
      if t[n].GotChanges? && t[n].nc == nc {
        assert LatestReply(t, n, |t|, nc);
      } else {
        var before := t[..n];
        PositionMeans(before, nc);
        if k :| 0 <= k < n && before[k].GotChanges? && before[k].nc == nc {
          var j :| 0 <= j < n && LatestReply(before, j, n, nc) && Position(before, nc) == (before[j].mark, before[j].invocationId);
          assert LatestReply(t, j, |t|, nc);
        } else {
          assert forall k :: 0 <= k < n ==> t[k] == before[k];
        }
      }
    }
  }

  /** Each request resumes where the reply before it left off: from nothing, or from that reply's watermark and id. */
  lemma RequestsResume(t: Trace, i: nat)
    requires Orderly(t) && i < |t| && t[i].SentGetChanges?
    ensures (t[i].mark == Mark(0, 0) && t[i].invocationId == 0 && forall k :: 0 <= k < i ==> !(t[k].GotChanges? && t[k].nc == t[i].nc))
            || exists j: nat :: LatestReply(t, j, i, t[i].nc) && t[i].mark == t[j].mark && t[i].invocationId == t[j].invocationId
  {
    AllowedAt(t, i);
    var nc := t[i].nc;
    PositionMeans(t[..i], nc);
    if j :| 0 <= j < i && LatestReply(t[..i], j, i, nc) && Position(t[..i], nc) == (t[..i][j].mark, t[..i][j].invocationId) {
      assert LatestReply(t, j, i, nc) by {
        assert forall k :: 0 <= k < i ==> t[..i][k] == t[k];
      }
    } else {
      assert forall k :: 0 <= k < i ==> t[..i][k] == t[k];
    }
  }
}
