/** Logon information converted to the NETLOGON and PAC form and back. */
module LogonInfo {
  import opened Wrappers
  import opened Bytes

  datatype Sid = Sid(revision: nat, idAuth: seq<byte>, subAuths: seq<nat>)

  function AddRid(domain: Sid, rid: nat): Sid {
    domain.(subAuths := domain.subAuths + [rid])
  }

  /** dom_sid_in_domain: the domain's sub-authorities are a prefix of the other's. */
  predicate InDomain(domain: Sid, sid: Sid) {
    domain.revision == sid.revision && domain.idAuth == sid.idAuth && domain.subAuths <= sid.subAuths
  }

  function LastAuth(sid: Sid): nat
    requires sid.subAuths != []
  {
    sid.subAuths[|sid.subAuths| - 1]
  }

  /** In the domain with exactly one further sub-authority, its relative id. */
  predicate DirectMember(domain: Sid, sid: Sid) {
    InDomain(domain, sid) && |sid.subAuths| == |domain.subAuths| + 1
  }

  datatype Profile = Profile(fullName: Option<string>, logonScript: Option<string>, profilePath: Option<string>,
    homeDirectory: Option<string>, homeDrive: Option<string>, logonServer: Option<string>, domainName: Option<string>)

  datatype Times = Times(lastLogon: nat, lastLogoff: nat, acctExpiry: nat, lastPasswordChange: nat,
    allowPasswordChange: nat, forcePasswordChange: nat)

  /** auth_serversupplied_info */
  datatype ServerInfo = ServerInfo(
    accountSid: Sid,
    primaryGroupSid: Sid,
    domainGroups: seq<Sid>,
    userSessionKey: seq<byte>,
    lmSessionKey: seq<byte>,
    accountName: Option<string>,
    profile: Profile,
    times: Times,
    logonCount: nat,
    badPasswordCount: nat,
    acctFlags: nat,
    authenticated: bool)

  const MANDATORY: nat := 1
  const ENABLED_BY_DEFAULT: nat := 2
  const ENABLED: nat := 4
  const GROUP_ATTRIBUTES: nat := MANDATORY + ENABLED_BY_DEFAULT + ENABLED
  const NETLOGON_EXTRA_SIDS: nat := 0x20

  datatype RidWithAttribute = RidWithAttribute(rid: nat, attributes: nat)

  datatype SidAttr = SidAttr(sid: Sid, attribute: nat)

  /** netr_SamBaseInfo */
  datatype SamBase = SamBase(
    domainSid: Sid,
    rid: nat,
    primaryGid: nat,
    groups: seq<RidWithAttribute>,
    userFlags: nat,
    key: seq<byte>,
    lmSessKey: seq<byte>,
    accountName: Option<string>,
    profile: Profile,
    times: Times,
    logonCount: nat,
    badPasswordCount: nat,
    acctFlags: nat)

  /** netr_SamInfo3 */
  datatype SamInfo3 = SamInfo3(base: SamBase, sids: seq<SidAttr>)

  // ----- what the conversions compute -----

  function Inside(domain: Sid, groups: seq<Sid>): seq<Sid> {
    if groups == [] then []
    else (if InDomain(domain, groups[0]) then [groups[0]] else []) + Inside(domain, groups[1..])
  }

  function Outside(domain: Sid, groups: seq<Sid>): seq<Sid> {
    if groups == [] then []
    else (if InDomain(domain, groups[0]) then [] else [groups[0]]) + Outside(domain, groups[1..])
  }

  /** A key of the right size is copied; any other leaves the field zero. */
  function KeyField(key: seq<byte>, size: nat): seq<byte> {
    if |key| == size then key else Zeros(size)
  }

  /** A field that is all zero is no key. */
  function KeyOf(field: seq<byte>): seq<byte> {
    if forall i :: 0 <= i < |field| ==> field[i] == 0 then [] else field
  }

  function DomainOf(info: ServerInfo): Sid
    requires info.accountSid.subAuths != []
  {
    info.accountSid.(subAuths := info.accountSid.subAuths[..|info.accountSid.subAuths| - 1])
  }

  predicate Convertible(info: ServerInfo) {
    && info.accountSid.subAuths != [] && info.primaryGroupSid.subAuths != []
    && forall g :: g in info.domainGroups && InDomain(DomainOf(info), g) ==> g.subAuths != []
  }

  function Rid(g: Sid): RidWithAttribute
  {
    RidWithAttribute(if g.subAuths == [] then 0 else LastAuth(g), GROUP_ATTRIBUTES)
  }

  function Rids(groups: seq<Sid>): seq<RidWithAttribute> {
    seq(|groups|, i requires 0 <= i < |groups| => Rid(groups[i]))
  }

  function SidAttrs(groups: seq<Sid>): seq<SidAttr> {
    seq(|groups|, i requires 0 <= i < |groups| => SidAttr(groups[i], GROUP_ATTRIBUTES))
  }

  function BaseOf(info: ServerInfo, flags: nat): SamBase
    requires Convertible(info)
  {
    SamBase(DomainOf(info), LastAuth(info.accountSid), LastAuth(info.primaryGroupSid),
      Rids(Inside(DomainOf(info), info.domainGroups)), flags,
      KeyField(info.userSessionKey, 16), KeyField(info.lmSessionKey, 8),
      info.accountName, info.profile, info.times, info.logonCount, 0, info.acctFlags)
  }

  function ToSamInfo3(info: ServerInfo): SamInfo3
    requires Convertible(info)
  {
    var extra := Outside(DomainOf(info), info.domainGroups);
    SamInfo3(BaseOf(info, if extra == [] then 0 else NETLOGON_EXTRA_SIDS), SidAttrs(extra))
  }

  function GroupSids(domain: Sid, rids: seq<RidWithAttribute>): seq<Sid> {
    seq(|rids|, i requires 0 <= i < |rids| => AddRid(domain, rids[i].rid))
  }

  function ExtraSids(sids: seq<SidAttr>): seq<Sid> {
    seq(|sids|, i requires 0 <= i < |sids| => sids[i].sid)
  }

  /** The logon information in a validation; only level 3 brings extra SIDs. */
  function FromSam(sam: SamInfo3, level: nat, accountName: string): ServerInfo {
    var base := sam.base;
    ServerInfo(AddRid(base.domainSid, base.rid), AddRid(base.domainSid, base.primaryGid),
      GroupSids(base.domainSid, base.groups) + (if level == 3 then ExtraSids(sam.sids) else []),
      KeyOf(base.key), KeyOf(base.lmSessKey),
      if base.accountName.Some? then base.accountName else Some(accountName),
      base.profile, base.times, base.logonCount, base.badPasswordCount, base.acctFlags, true)
  }

  predicate InGroups(domain: Sid, ins: seq<Sid>, rids: seq<RidWithAttribute>) {
    && |rids| == |ins|
    && forall i :: 0 <= i < |ins| && ins[i].subAuths != [] ==>
         rids[i] == RidWithAttribute(LastAuth(ins[i]), MANDATORY + ENABLED_BY_DEFAULT + ENABLED)
  }

  /** A field of the given size that holds the key if that has the same size, and zeros otherwise. */
  predicate HoldsKey(field: seq<byte>, key: seq<byte>, size: nat) {
    |field| == size && if |key| == size then field == key else forall b :: b in field ==> b == 0
  }

  /** What the converted information says, field by field. */
  lemma BaseIs(info: ServerInfo, flags: nat)
    requires Convertible(info)
    ensures var sam, primary := BaseOf(info, flags), info.primaryGroupSid.subAuths;
            && AddRid(sam.domainSid, sam.rid) == info.accountSid
            && primary == primary[..|primary| - 1] + [sam.primaryGid]
            && InGroups(sam.domainSid, Inside(sam.domainSid, info.domainGroups), sam.groups)
            && HoldsKey(sam.key, info.userSessionKey, 16) && HoldsKey(sam.lmSessKey, info.lmSessionKey, 8)
            && sam.accountName == info.accountName && sam.profile == info.profile && sam.times == info.times
            && sam.logonCount == info.logonCount && sam.badPasswordCount == 0 && sam.acctFlags == info.acctFlags
            && sam.userFlags == flags
  {
    var account := info.accountSid.subAuths;
    assert account == account[..|account| - 1] + [LastAuth(info.accountSid)];
  }

  // ----- the code -----

  lemma {:induction false} InsideAppend(domain: Sid, a: seq<Sid>, g: Sid)
    ensures Inside(domain, a + [g]) == Inside(domain, a) + (if InDomain(domain, g) then [g] else [])
    ensures Outside(domain, a + [g]) == Outside(domain, a) + (if InDomain(domain, g) then [] else [g])
    ensures |Inside(domain, a)| <= |a| && |Outside(domain, a)| <= |a|
  {
    if a == [] {
      assert [g][1..] == [];
    } else {
      assert (a + [g])[1..] == a[1..] + [g];
      InsideAppend(domain, a[1..], g);
    }
  }

  lemma InsideStep(domain: Sid, groups: seq<Sid>, i: nat)
    requires i < |groups|
    ensures var g := groups[i];
            && Inside(domain, groups[..i + 1]) == Inside(domain, groups[..i]) + (if InDomain(domain, g) then [g] else [])
            && Outside(domain, groups[..i + 1]) == Outside(domain, groups[..i]) + (if InDomain(domain, g) then [] else [g])
            && |Inside(domain, groups[..i])| <= i && |Outside(domain, groups[..i])| <= i
  {
    InsideAppend(domain, groups[..i], groups[i]);
    assert groups[..i + 1] == groups[..i] + [groups[i]];
  }

  /** The loop that collects the relative ids of the in-domain groups. */
  method CollectRids(domain: Sid, groups: seq<Sid>) returns (found: seq<RidWithAttribute>)
    requires forall g :: g in groups && InDomain(domain, g) ==> g.subAuths != []
    ensures found == Rids(Inside(domain, groups))
  {
    var rids := new RidWithAttribute[|groups|](_ => RidWithAttribute(0, 0));
    var count := 0;
    for i := 0 to |groups|
      invariant count <= i && count == |Inside(domain, groups[..i])|
      invariant rids[..count] == Rids(Inside(domain, groups[..i]))
    {
      var g := groups[i];
      InsideStep(domain, groups, i);
      if !InDomain(domain, g) {
        continue;
      }
      rids[count] := RidWithAttribute(LastAuth(g), GROUP_ATTRIBUTES);
      count := count + 1;
    }
    assert groups[..|groups|] == groups;
    found := rids[..count];
  }

  /** auth_convert_server_info_sambaseinfo */
  method ConvertToBase(info: ServerInfo) returns (sam: SamBase)
    requires Convertible(info)
    ensures sam == BaseOf(info, 0)
  {
    var domain := DomainOf(info);
    var rids := CollectRids(domain, info.domainGroups);
    sam := SamBase(domain, LastAuth(info.accountSid), LastAuth(info.primaryGroupSid), rids, 0,
      if |info.userSessionKey| == 16 then info.userSessionKey else Zeros(16),
      if |info.lmSessionKey| == 8 then info.lmSessionKey else Zeros(8),
      info.accountName, info.profile, info.times, info.logonCount, 0, info.acctFlags);
  }

  lemma {:induction false} OutsideIs(domain: Sid, groups: seq<Sid>)
    ensures Outside(domain, groups) == [] <==> forall g :: g in groups ==> InDomain(domain, g)
  {
    if groups != [] {
      OutsideIs(domain, groups[1..]);
      assert groups == [groups[0]] + groups[1..];
    }
  }

  /** The loop that collects the other groups. */
  method CollectSids(domain: Sid, groups: seq<Sid>) returns (found: seq<SidAttr>)
    ensures found == SidAttrs(Outside(domain, groups))
  {
    var sids := new SidAttr[|groups|](_ => SidAttr(domain, 0));
    var sidcount := 0;
    for i := 0 to |groups|
      invariant sidcount <= i && sidcount == |Outside(domain, groups[..i])|
      invariant sids[..sidcount] == SidAttrs(Outside(domain, groups[..i]))
    {
      InsideStep(domain, groups, i);
      if InDomain(domain, groups[i]) {
        continue;
      }
      sids[sidcount] := SidAttr(groups[i], GROUP_ATTRIBUTES);
      sidcount := sidcount + 1;
    }
    assert groups[..|groups|] == groups;
    found := sids[..sidcount];
  }

  /** auth_convert_server_info_saminfo3 */
  method ConvertToSamInfo3(info: ServerInfo) returns (sam3: SamInfo3)
    requires Convertible(info)
    ensures sam3 == ToSamInfo3(info)
    ensures forall i :: 0 <= i < |sam3.sids| ==> sam3.sids[i].attribute == MANDATORY + ENABLED_BY_DEFAULT + ENABLED
    ensures sam3.base.userFlags == NETLOGON_EXTRA_SIDS <==> exists g :: g in info.domainGroups && !InDomain(DomainOf(info), g)
  {
    var sam := ConvertToBase(info);
    var sids := CollectSids(sam.domainSid, info.domainGroups);
    OutsideIs(sam.domainSid, info.domainGroups);
    sam3 := SamInfo3(sam.(userFlags := if |sids| != 0 then NETLOGON_EXTRA_SIDS else 0), sids);
  }

  datatype Result = Success(info: ServerInfo) | InvalidParameter | InvalidLevel

  /** The SIDs of the groups, and behind them the extra SIDs, if they are taken. */
  method RebuildGroups(base: SamBase, sids: seq<SidAttr>) returns (rebuilt: seq<Sid>)
    ensures rebuilt == GroupSids(base.domainSid, base.groups) + ExtraSids(sids)
  {
    var n := |base.groups|;
    var groups := new Sid[n + |sids|](_ => base.domainSid);
    ghost var inner := GroupSids(base.domainSid, base.groups);
    for i := 0 to n
      invariant groups[..i] == inner[..i]
    {
      groups[i] := AddRid(base.domainSid, base.groups[i].rid);
    }
    assert groups[..n] == inner;
    for i := 0 to |sids|
      invariant groups[..n + i] == inner + ExtraSids(sids)[..i]
    {
      groups[n + i] := sids[i].sid;
    }
    rebuilt := groups[..];
  }

  /** make_server_info_netlogon_validation */
  method MakeServerInfo(accountName: string, level: nat, validation: Option<SamInfo3>) returns (r: Result)
    ensures r.InvalidLevel? <==> level != 2 && level != 3 && level != 6
    ensures r.InvalidParameter? <==> (level == 2 || level == 3 || level == 6) && validation.None?
    ensures r.Success? ==> r.info == FromSam(validation.value, level, accountName)
  {
    if level != 2 && level != 3 && level != 6 {
      return InvalidLevel;
    }
    if validation.None? {
      return InvalidParameter;
    }
    var base := validation.value.base;
    var groups := RebuildGroups(base, if level == 3 then validation.value.sids else []);
    assert level != 3 ==> groups == GroupSids(base.domainSid, base.groups) + [];
    r := Success(ServerInfo(AddRid(base.domainSid, base.rid), AddRid(base.domainSid, base.primaryGid), groups,
      KeyOf(base.key), KeyOf(base.lmSessKey),
      if base.accountName.Some? then base.accountName else Some(accountName),
      base.profile, base.times, base.logonCount, base.badPasswordCount, base.acctFlags, true));
  }

  // ----- the two conversions against each other -----

  function RoundTrip(info: ServerInfo, level: nat, accountName: string): ServerInfo
    requires Convertible(info)
  {
    FromSam(ToSamInfo3(info), level, accountName)
  }

  lemma ExtrasComeBack(groups: seq<Sid>)
    ensures ExtraSids(SidAttrs(groups)) == groups
  {
  }

  /** In the domain: equal to it, or extending it; the domain is in itself, but not a direct member. */
  lemma InDomainIs(domain: Sid, sid: Sid)
    ensures InDomain(domain, sid) <==>
            |domain.subAuths| <= |sid.subAuths| && sid.(subAuths := sid.subAuths[..|domain.subAuths|]) == domain
    ensures InDomain(domain, domain) && !DirectMember(domain, domain)
    ensures forall rid: nat :: DirectMember(domain, AddRid(domain, rid))
  {
    assert domain.subAuths[..|domain.subAuths|] == domain.subAuths;
  }

  /** A SID rebuilt from its last sub-authority is itself exactly when it is a direct member of the domain. */
  lemma Rebuilt(domain: Sid, sid: Sid)
    requires sid.subAuths != []
    ensures AddRid(domain, LastAuth(sid)) == sid <==> DirectMember(domain, sid)
  {
    var n := |sid.subAuths| - 1;
    assert sid.subAuths == sid.subAuths[..n] + [LastAuth(sid)];
    if AddRid(domain, LastAuth(sid)) == sid {
      assert sid.subAuths[..n] == domain.subAuths;
    }
  }

  lemma {:induction false} InsideAreIn(domain: Sid, groups: seq<Sid>)
    ensures forall g :: g in Inside(domain, groups) <==> g in groups && InDomain(domain, g)
    ensures forall g :: g in Outside(domain, groups) <==> g in groups && !InDomain(domain, g)
    ensures multiset(Inside(domain, groups) + Outside(domain, groups)) == multiset(groups)
  {
    if groups != [] {
      InsideAreIn(domain, groups[1..]);
      assert groups == [groups[0]] + groups[1..];
      var rest := groups[1..];
      assert multiset(Inside(domain, groups) + Outside(domain, groups))
          == multiset(Inside(domain, groups)) + multiset(Outside(domain, groups));
      assert multiset(Inside(domain, rest) + Outside(domain, rest))
          == multiset(Inside(domain, rest)) + multiset(Outside(domain, rest));
    }
  }

  /** Rebuilt SIDs are direct members of the domain. */
  lemma NotRebuilt(d: Sid, rids: seq<RidWithAttribute>, outs: seq<Sid>, g: Sid)
    requires InDomain(d, g) && !DirectMember(d, g) && forall x :: x in outs ==> !InDomain(d, x)
    ensures g !in GroupSids(d, rids) + outs
  {
    assert forall x :: x in GroupSids(d, rids) ==> DirectMember(d, x);
  }

  lemma RebuiltAll(d: Sid, ins: seq<Sid>)
    requires forall g :: g in ins ==> g.subAuths != []
    ensures GroupSids(d, Rids(ins)) == ins <==> forall g :: g in ins ==> DirectMember(d, g)
  {
    var rebuilt := GroupSids(d, Rids(ins));
    forall i | 0 <= i < |ins|
      ensures rebuilt[i] == ins[i] <==> DirectMember(d, ins[i])
    {
      assert ins[i] in ins;
      Rebuilt(d, ins[i]);
    }
    if rebuilt == ins {
      forall g | g in ins
        ensures DirectMember(d, g)
      {
        var i :| 0 <= i < |ins| && ins[i] == g;
      }
    }
  }

  /** In-domain groups come back, with others behind them, exactly when they have one relative id each. */
  lemma GroupsBack(d: Sid, gs: seq<Sid>, outs: seq<Sid>)
    requires forall g :: g in gs && InDomain(d, g) ==> g.subAuths != []
    requires forall x :: x in outs ==> !InDomain(d, x)
    ensures var ins := Inside(d, gs); var back := GroupSids(d, Rids(ins)) + outs;
            && (back == ins + outs <==> forall g :: g in gs && InDomain(d, g) ==> DirectMember(d, g))
            && (multiset(back) == multiset(ins + outs) <==> forall g :: g in gs && InDomain(d, g) ==> DirectMember(d, g))
            && |back| == |ins| + |outs|
  {
    var ins := Inside(d, gs);
    InsideAreIn(d, gs);
    RebuiltAll(d, ins);
    var back := GroupSids(d, Rids(ins)) + outs;
    if back == ins + outs {
      assert back[..|ins|] == GroupSids(d, Rids(ins)) && (ins + outs)[..|ins|] == ins;
    }
    if g :| g in gs && InDomain(d, g) && !DirectMember(d, g) {
      NotRebuilt(d, Rids(ins), outs, g);
      assert g in ins && g in ins + outs;
      assert multiset(ins + outs)[g] > 0 && multiset(back)[g] == 0;
    }
  }

  /** Groups come back as the stable partition, in-domain ones first, exactly when those have one relative id each. */
  lemma GroupsRoundTrip(info: ServerInfo, accountName: string)
    requires Convertible(info)
    ensures var d, gs, back := DomainOf(info), info.domainGroups, RoundTrip(info, 3, accountName).domainGroups;
            && (back == Inside(d, gs) + Outside(d, gs) <==> forall g :: g in gs && InDomain(d, g) ==> DirectMember(d, g))
            && (multiset(back) == multiset(gs) <==> forall g :: g in gs && InDomain(d, g) ==> DirectMember(d, g))
            && |back| == |gs|
  {
    var d, gs := DomainOf(info), info.domainGroups;
    InsideAreIn(d, gs);
    ExtrasComeBack(Outside(d, gs));
    GroupsBack(d, gs, Outside(d, gs));
    assert |Inside(d, gs) + Outside(d, gs)| == |multiset(gs)|;
  }

  lemma NoneOutside(d: Sid, gs: seq<Sid>)
    ensures multiset(Inside(d, gs)) == multiset(gs) <==> forall g :: g in gs ==> InDomain(d, g)
  {
    InsideAreIn(d, gs);
    OutsideIs(d, gs);
    if multiset(Inside(d, gs)) == multiset(gs) {
      forall g | g in gs
        ensures InDomain(d, g)
      {
        assert g in multiset(Inside(d, gs));
      }
    }
    if Outside(d, gs) == [] {
      assert Inside(d, gs) + [] == Inside(d, gs);
    }
  }

  lemma AllDirect(d: Sid, gs: seq<Sid>, back: seq<Sid>)
    requires multiset(back) == multiset(gs) && forall g :: g in back ==> DirectMember(d, g)
    ensures forall g :: g in gs ==> DirectMember(d, g)
  {
    forall g | g in gs
      ensures DirectMember(d, g)
    {
      assert g in multiset(back);
    }
  }

  lemma RebuiltAreDirect(d: Sid, rids: seq<RidWithAttribute>)
    ensures forall g :: g in GroupSids(d, rids) ==> DirectMember(d, g)
  {
  }

  lemma GroupsAlone(d: Sid, gs: seq<Sid>)
    requires forall g :: g in gs && InDomain(d, g) ==> g.subAuths != []
    ensures var ins := Inside(d, gs); var back := GroupSids(d, Rids(ins));
            && (back == ins <==> forall g :: g in gs && InDomain(d, g) ==> DirectMember(d, g))
            && (multiset(back) == multiset(ins) <==> forall g :: g in gs && InDomain(d, g) ==> DirectMember(d, g))
  {
    GroupsBack(d, gs, []);
    var ins := Inside(d, gs);
    assert GroupSids(d, Rids(ins)) + [] == GroupSids(d, Rids(ins)) && ins + [] == ins;
  }

  /** The levels without extra SIDs bring back the in-domain groups alone, so that all survive only if all are direct members. */
  lemma GroupsWithoutExtras(info: ServerInfo, level: nat, accountName: string)
    requires Convertible(info) && level != 3
    ensures var d, gs, back := DomainOf(info), info.domainGroups, RoundTrip(info, level, accountName).domainGroups;
            && (back == Inside(d, gs) <==> forall g :: g in gs && InDomain(d, g) ==> DirectMember(d, g))
            && (multiset(back) == multiset(gs) <==> forall g :: g in gs ==> DirectMember(d, g))
            && forall g :: g in back ==> DirectMember(d, g)
  {
    var d, gs := DomainOf(info), info.domainGroups;
    var back := GroupSids(d, Rids(Inside(d, gs)));
    assert RoundTrip(info, level, accountName).domainGroups == back + [] == back;
    GroupsAlone(d, gs);
    NoneOutside(d, gs);
    RebuiltAreDirect(d, Rids(Inside(d, gs)));
    if multiset(back) == multiset(gs) {
      AllDirect(d, gs, back);
    }
  }

  /** The key that comes back is the one given if that is empty, or has the size of its field and is not all zero. */
  predicate Survives(key: seq<byte>, size: nat) {
    key == [] || (|key| == size && exists i :: 0 <= i < |key| && key[i] != 0)
  }

  /** A session key survives exactly when it is empty or has the size of its field and is not all zero. */
  lemma KeyRoundTrip(key: seq<byte>, size: nat)
    ensures KeyOf(KeyField(key, size)) == if Survives(key, size) then key else []
  {
  }

  /**
   Everything else, at every level: the account SID always, the primary group when in the domain, each session key
   when it fits its field, the account name unless there was none; the bad password count never.
   */
  lemma FieldsRoundTrip(info: ServerInfo, level: nat, accountName: string)
    requires Convertible(info)
    ensures var back := RoundTrip(info, level, accountName);
            && back.accountSid == info.accountSid
            && (back.primaryGroupSid == info.primaryGroupSid <==> DirectMember(DomainOf(info), info.primaryGroupSid))
            && (back.userSessionKey == info.userSessionKey <==> Survives(info.userSessionKey, 16))
            && (back.lmSessionKey == info.lmSessionKey <==> Survives(info.lmSessionKey, 8))
            && (!Survives(info.userSessionKey, 16) ==> back.userSessionKey == [])
            && (!Survives(info.lmSessionKey, 8) ==> back.lmSessionKey == [])
            && back.profile == info.profile && back.times == info.times
            && back.logonCount == info.logonCount && back.acctFlags == info.acctFlags
            && (back.badPasswordCount == info.badPasswordCount <==> info.badPasswordCount == 0)
            && back.accountName == (if info.accountName.Some? then info.accountName else Some(accountName))
            && back.authenticated
  {
    Rebuilt(DomainOf(info), info.accountSid);
    Rebuilt(DomainOf(info), info.primaryGroupSid);
    KeyRoundTrip(info.userSessionKey, 16);
    KeyRoundTrip(info.lmSessionKey, 8);
  }

  lemma ExtrasOutside(domain: Sid, sids: seq<SidAttr>)
    requires forall x :: x in sids ==> !InDomain(domain, x.sid)
    ensures forall g :: g in ExtraSids(sids) ==> !InDomain(domain, g)
  {
    forall g | g in ExtraSids(sids)
      ensures !InDomain(domain, g)
    {
      var i :| 0 <= i < |sids| && sids[i].sid == g;
      assert sids[i] in sids;
    }
  }

  /** The groups of a validation, told apart again. */
  lemma GroupsApart(domain: Sid, rids: seq<RidWithAttribute>, outs: seq<Sid>)
    requires forall g :: g in outs ==> !InDomain(domain, g)
    ensures var ins := GroupSids(domain, rids);
            && Inside(domain, ins + outs) == ins && Outside(domain, ins + outs) == outs
            && (forall g :: g in ins ==> g.subAuths != [])
  {
    var ins := GroupSids(domain, rids);
    assert forall g :: g in ins ==> DirectMember(domain, g);
    PartitionOfPartition(domain, ins, outs);
  }

  /** The relative ids are those that came, with the fixed attributes. */
  predicate SameRids(came: seq<RidWithAttribute>, went: seq<RidWithAttribute>) {
    && |went| == |came|
    && forall i :: 0 <= i < |came| ==> went[i] == RidWithAttribute(came[i].rid, GROUP_ATTRIBUTES)
  }

  predicate SameSids(came: seq<SidAttr>, went: seq<SidAttr>) {
    && |went| == |came|
    && forall i :: 0 <= i < |came| ==> went[i] == SidAttr(came[i].sid, GROUP_ATTRIBUTES)
  }

  lemma RidsComeBack(domain: Sid, rids: seq<RidWithAttribute>, sids: seq<SidAttr>)
    ensures SameRids(rids, Rids(GroupSids(domain, rids))) && SameSids(sids, SidAttrs(ExtraSids(sids)))
  {
  }

  lemma ConvertibleAgain(sam: SamInfo3, level: nat, accountName: string)
    requires forall x :: x in sam.sids ==> !InDomain(sam.base.domainSid, x.sid)
    ensures var info := FromSam(sam, level, accountName);
            && Convertible(info) && DomainOf(info) == sam.base.domainSid
            && Inside(DomainOf(info), info.domainGroups) == GroupSids(sam.base.domainSid, sam.base.groups)
            && Outside(DomainOf(info), info.domainGroups) == ExtraSids(if level == 3 then sam.sids else [])
  {
    var d, outs := sam.base.domainSid, ExtraSids(if level == 3 then sam.sids else []);
    var info := FromSam(sam, level, accountName);
    assert DomainOf(info).subAuths == d.subAuths;
    ExtrasOutside(d, if level == 3 then sam.sids else []);
    GroupsApart(d, sam.base.groups, outs);
    InsideAreIn(d, info.domainGroups);
  }

  /**
   A validation taken in and given out again: name, counts, flags and relative ids are those that came, the groups
   have the fixed attributes, and the bad password count is lost on the way out.
   */
  lemma ValidationRoundTrip(sam: SamInfo3, level: nat, accountName: string)
    requires forall x :: x in sam.sids ==> !InDomain(sam.base.domainSid, x.sid)
    ensures var info := FromSam(sam, level, accountName);
            && info.badPasswordCount == sam.base.badPasswordCount && Convertible(info)
            && var back := ToSamInfo3(info);
               && back.base.domainSid == sam.base.domainSid && back.base.rid == sam.base.rid
               && back.base.primaryGid == sam.base.primaryGid
               && (sam.base.accountName.Some? ==> back.base.accountName == sam.base.accountName)
               && back.base.logonCount == sam.base.logonCount && back.base.badPasswordCount == 0
               && SameRids(sam.base.groups, back.base.groups) && SameSids(if level == 3 then sam.sids else [], back.sids)
  {
    ConvertibleAgain(sam, level, accountName);
    RidsComeBack(sam.base.domainSid, sam.base.groups, if level == 3 then sam.sids else []);
  }

  lemma {:induction false} PartitionOfPartition(domain: Sid, ins: seq<Sid>, outs: seq<Sid>)
    requires forall g :: g in ins ==> InDomain(domain, g)
    requires forall g :: g in outs ==> !InDomain(domain, g)
    ensures Inside(domain, ins + outs) == ins && Outside(domain, ins + outs) == outs
    decreases |ins| + |outs|
  {
    if ins != [] {
      assert (ins + outs)[1..] == ins[1..] + outs;
      PartitionOfPartition(domain, ins[1..], outs);
      assert ins == [ins[0]] + ins[1..];
    } else if outs != [] {
      assert ins + outs == outs;
      assert [] + outs[1..] == outs[1..];
      PartitionOfPartition(domain, [], outs[1..]);
      assert outs == [outs[0]] + outs[1..];
    } else {
      assert ins + outs == [];
    }
  }

  /** Logon information in the form in which it comes back. */
  ghost predicate Settled(info: ServerInfo) {
    && Convertible(info)
    && Inside(DomainOf(info), info.domainGroups) + Outside(DomainOf(info), info.domainGroups) == info.domainGroups
    && (forall g :: g in info.domainGroups && InDomain(DomainOf(info), g) ==> DirectMember(DomainOf(info), g))
    && DirectMember(DomainOf(info), info.primaryGroupSid)
    && Survives(info.userSessionKey, 16) && Survives(info.lmSessionKey, 8)
    && info.accountName.Some? && info.badPasswordCount == 0 && info.authenticated
  }

  lemma SettledStays(info: ServerInfo, accountName: string)
    requires Settled(info)
    ensures RoundTrip(info, 3, accountName) == info
  {
    FieldsRoundTrip(info, 3, accountName);
    GroupsRoundTrip(info, accountName);
  }

  /** The groups that come back have the form in which they come back. */
  lemma GroupsSettled(info: ServerInfo, accountName: string)
    requires Convertible(info)
    ensures var d, gs := DomainOf(info), RoundTrip(info, 3, accountName).domainGroups;
            && Inside(d, gs) + Outside(d, gs) == gs
            && (forall g :: g in gs && InDomain(d, g) ==> DirectMember(d, g) && g.subAuths != [])
  {
    var d := DomainOf(info);
    var rids, outs := ToSamInfo3(info).base.groups, Outside(d, info.domainGroups);
    ExtrasComeBack(outs);
    InsideAreIn(d, info.domainGroups);
    GroupsApart(d, rids, outs);
    RebuiltAreDirect(d, rids);
  }

  lemma KeySurvives(key: seq<byte>, size: nat)
    ensures Survives(KeyOf(KeyField(key, size)), size)
  {
    KeyRoundTrip(key, size);
  }

  lemma OnceSettled(info: ServerInfo, accountName: string)
    requires Convertible(info)
    ensures Settled(RoundTrip(info, 3, accountName)) && DomainOf(RoundTrip(info, 3, accountName)) == DomainOf(info)
  {
    var once := RoundTrip(info, 3, accountName);
    FieldsRoundTrip(info, 3, accountName);
    GroupsSettled(info, accountName);
    KeySurvives(info.userSessionKey, 16);
    KeySurvives(info.lmSessionKey, 8);
  }

  /** A second round trip changes nothing, whatever the first one started from. */
  lemma SecondRoundTrip(info: ServerInfo, accountName: string)
    requires Convertible(info)
    ensures var once := RoundTrip(info, 3, accountName);
            && Convertible(once) && DomainOf(once) == DomainOf(info)
            && RoundTrip(once, 3, accountName) == once
  {
    OnceSettled(info, accountName);
    SettledStays(RoundTrip(info, 3, accountName), accountName);
  }
}
