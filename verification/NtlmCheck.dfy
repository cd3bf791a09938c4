/** The password decision of ntlm_check.c and the responses that encrypt_user_info builds for it. */
module NtlmCheck {
  import opened Wrappers
  import opened Bytes

  type Blob = seq<byte>

  /** The hash functions, left uninterpreted. */
  datatype Crypto = Crypto(
    owf: (Blob, Blob) -> Blob,                               // SMBOWFencrypt
    sessKeyV1: Blob -> Blob,                                 // SMBsesskeygen_ntv1
    owfV2: (Blob, string, string, bool) -> Option<Blob>,     // ntv2_owf_gen; the flag upper-cases the domain
    encryptV2: (Blob, Blob, Blob) -> Blob,                   // SMBOWFencrypt_ntv2
    sessKeyV2: (Blob, Blob) -> Blob,                         // SMBsesskeygen_ntv2
    mdfour: Blob -> Blob,
    fromDos: Blob -> Option<string>,                         // convert_string_talloc
    desHash: string -> Option<Blob>,                         // E_deshash
    md4Hash: string -> Blob)                                 // E_md4hash

  ghost predicate WellSized(c: Crypto) {
    && (forall h, ch :: |c.owf(h, ch)| == 24)
    && (forall h :: |c.sessKeyV1(h)| == 16)
    && (forall k, ch, d :: |c.encryptV2(k, ch, d)| == 16)
    && (forall k, r :: |c.sessKeyV2(k, r)| == 16)
  }

  /** lp_lanman_auth and lp_ntlm_auth */
  datatype Settings = Settings(lanmanAuth: bool, ntlmAuth: bool)

  datatype Status = Ok | WrongPassword | NotFound

  /** How an accepted logon was proved. */
  datatype Via = Cleartext | NtlmV2 | NtlmV1 | Lm | LmV2 | NtInLmField | Nothing

  datatype Outcome = Outcome(status: Status, userKey: Blob, lmKey: Blob, via: Via)

  datatype Logon = Logon(
    cleartextAllowed: bool,
    challenge: Blob,
    lm: Blob,
    nt: Blob,
    username: string,
    clientUser: string,
    clientDomain: string,
    storedLm: Option<Blob>,
    storedNt: Option<Blob>)

  predicate HasRealm(username: string) {
    '@' in username
  }

  /** smb_pwd_check_ntlmv1: the session key when the response is the right one. */
  function CheckV1(c: Crypto, response: Blob, hash: Blob, challenge: Blob): Option<Blob> {
    if |challenge| != 8 || |response| != 24 then None
    else if c.owf(hash, challenge) == response then Some(c.sessKeyV1(hash))
    else None
  }

  /** smb_sess_key_ntlmv2 */
  function SessKeyV2(c: Crypto, response: Blob, hash: Blob, challenge: Blob, user: string, domain: string, upper: bool): Option<Blob> {
    if |challenge| != 8 || |response| < 24 then None
    else match c.owfV2(hash, user, domain, upper)
      case None => None
      case Some(kr) => Some(c.sessKeyV2(kr, c.encryptV2(kr, challenge, response[16..])))
  }

  /** smb_pwd_check_ntlmv2 */
  function CheckV2(c: Crypto, response: Blob, hash: Blob, challenge: Blob, user: string, domain: string, upper: bool): Option<Blob> {
    if |challenge| != 8 || |response| < 24 then None
    else match c.owfV2(hash, user, domain, upper)
      case None => None
      case Some(kr) =>
        if c.encryptV2(kr, challenge, response[16..]) == response[..16]
        then Some(c.sessKeyV2(kr, c.encryptV2(kr, challenge, response[16..]))) else None
  }

  /** hash_password_check */
  function HashCheck(s: Settings, clientLm: Option<Blob>, clientNt: Option<Blob>, username: string, storedLm: Option<Blob>, storedNt: Option<Blob>): Status {
    if clientNt.Some? && storedNt.Some? then
      if clientNt == storedNt then Ok else WrongPassword
    else if clientLm.Some? && storedLm.Some? then
      if !s.lanmanAuth then WrongPassword
      else if HasRealm(username) then NotFound
      else if clientLm == storedLm then Ok else WrongPassword
    else if HasRealm(username) then NotFound else WrongPassword
  }

  predicate IsCleartext(l: Logon) {
    l.cleartextAllowed && l.challenge == [0, 0, 0, 0, 0, 0, 0, 0]
  }

  function CleartextCheck(c: Crypto, s: Settings, l: Logon): Status {
    var clientLm := if l.lm == [] || c.fromDos(l.lm).None? then None else c.desHash(c.fromDos(l.lm).value);
    HashCheck(s, clientLm, if l.nt == [] then None else Some(c.mdfour(l.nt)), l.username, l.storedLm, l.storedNt)
  }

  /** The three attempts at a version 2 response: with the domain as given, upper-cased, and without it. */
  function TryV2(c: Crypto, l: Logon, response: Blob, hash: Blob): Option<(Blob, string, bool)> {
    match CheckV2(c, response, hash, l.challenge, l.clientUser, l.clientDomain, false)
    case Some(k) => Some((k, l.clientDomain, false))
    case None =>
      match CheckV2(c, response, hash, l.challenge, l.clientUser, l.clientDomain, true)
      case Some(k) => Some((k, l.clientDomain, true))
      case None =>
        match CheckV2(c, response, hash, l.challenge, l.clientUser, "", false)
        case Some(k) => Some((k, "", false))
        case None => None
  }

  function FirstEight(b: Blob): Blob {
    if |b| >= 8 then b[..8] else b
  }

  function Reject(s: Status): Outcome {
    Outcome(s, [], [], Nothing)
  }

  /** The odd session keys of the LM answers: the first half of the LM hash, when LM is allowed at all. */
  function LmKeys(s: Settings, l: Logon, via: Via): Outcome {
    if s.lanmanAuth && l.storedLm.Some?
    then Outcome(Ok, FirstEight(l.storedLm.value) + [0, 0, 0, 0, 0, 0, 0, 0], FirstEight(l.storedLm.value), via)
    else Outcome(Ok, [], [], via)
  }

  /** The part of ntlm_password_check that looks at the LM response. */
  function CheckLmField(c: Crypto, s: Settings, l: Logon): Outcome {
    if |l.lm| < 24 then Reject(WrongPassword)
    else if s.lanmanAuth && l.storedLm.Some? && !HasRealm(l.username)
            && CheckV1(c, l.lm, l.storedLm.value, l.challenge).Some? then LmKeys(s, l, Lm)
    else match l.storedNt
      case None => Reject(WrongPassword)
      case Some(hash) =>
        match TryV2(c, l, l.lm, hash)
        case Some((key, domain, upper)) =>
          var user :=
            if |l.nt| > 24 then
              match SessKeyV2(c, l.nt, hash, l.challenge, l.clientUser, domain, upper)
              case Some(k) => k
              case None => []
            else key;
          Outcome(Ok, user, FirstEight(user), LmV2)
        case None =>
          if s.ntlmAuth && CheckV1(c, l.lm, hash, l.challenge).Some? then LmKeys(s, l, NtInLmField)
          else Reject(if HasRealm(l.username) then NotFound else WrongPassword)
  }

  /** ntlm_password_check */
  function Check(c: Crypto, s: Settings, l: Logon): Outcome {
    if IsCleartext(l) then Outcome(CleartextCheck(c, s, l), [], [], Cleartext)
    else if |l.nt| > 24 && l.storedNt.Some? then
      match TryV2(c, l, l.nt, l.storedNt.value)
      case Some((key, _, _)) => Outcome(Ok, key, FirstEight(key), NtlmV2)
      case None => CheckLmField(c, s, l)
    else if |l.nt| == 24 && l.storedNt.Some? && s.ntlmAuth then
      match CheckV1(c, l.nt, l.storedNt.value, l.challenge)
      case Some(key) => Outcome(Ok, key, if s.lanmanAuth && l.storedLm.Some? then FirstEight(l.storedLm.value) else [], NtlmV1)
      case None => Reject(WrongPassword)
    else CheckLmField(c, s, l)
  }

  // ----- what holds of every decision -----

  /** Allowing LANMAN authentication turns no accept into a reject. */
  lemma LanmanOnlyAdds(c: Crypto, s: Settings, l: Logon)
    requires Check(c, s.(lanmanAuth := false), l).status == Ok
    ensures Check(c, s.(lanmanAuth := true), l).status == Ok
  {
  }

  /** Without a stored NT hash, only an allowed LM hash of a name without realm can be accepted. */
  lemma NoNtHash(c: Crypto, s: Settings, l: Logon)
    requires l.storedNt == None && Check(c, s, l).status == Ok
    ensures s.lanmanAuth && l.storedLm.Some? && '@' !in l.username
    ensures Check(c, s, l).via == Lm || Check(c, s, l).via == Cleartext
  {
  }

  /** With both old schemes switched off, a challenge is only ever answered with version 2. */
  lemma OnlyV2Left(c: Crypto, l: Logon)
    requires !IsCleartext(l) && Check(c, Settings(false, false), l).status == Ok
    ensures Check(c, Settings(false, false), l).via == NtlmV2 || Check(c, Settings(false, false), l).via == LmV2
  {
  }

  /** The response is the version 1 answer of the given hash. */
  predicate ProvesV1(c: Crypto, l: Logon, hash: Option<Blob>, response: Blob) {
    hash.Some? && |l.challenge| == 8 && |response| == 24 && response == c.owf(hash.value, l.challenge)
  }

  /** The spellings of the domain that are tried, in this order: as given, upper-cased, and none. */
  function Spellings(l: Logon): seq<(string, bool)> {
    [(l.clientDomain, false), (l.clientDomain, true), ("", false)]
  }

  /** The keyed hash of the user for one spelling of the domain. */
  function Keyed(c: Crypto, l: Logon, v: (string, bool)): Option<Blob>
    requires l.storedNt.Some?
  {
    c.owfV2(l.storedNt.value, l.clientUser, v.0, v.1)
  }

  predicate SignedFor(c: Crypto, l: Logon, response: Blob, v: (string, bool))
    requires l.storedNt.Some? && |response| >= 16
  {
    var kr := Keyed(c, l, v);
    kr.Some? && response == c.encryptV2(kr.value, l.challenge, response[16..]) + response[16..]
  }

  /** The spelling at place k is the first for which the response is right. */
  predicate FirstSpelling(c: Crypto, l: Logon, response: Blob, k: nat)
    requires l.storedNt.Some? && |response| >= 16
  {
    k < 3 && SignedFor(c, l, response, Spellings(l)[k]) && forall j :: 0 <= j < k ==> !SignedFor(c, l, response, Spellings(l)[j])
  }

  /** The response opens with the keyed digest of its own rest, for one of the three spellings of the domain. */
  ghost predicate ProvesV2(c: Crypto, l: Logon, response: Blob) {
    && l.storedNt.Some? && |l.challenge| == 8 && |response| >= 24
    && exists k :: 0 <= k < 3 && SignedFor(c, l, response, Spellings(l)[k])
  }

  lemma CheckV2Is(c: Crypto, l: Logon, response: Blob, k: nat)
    requires l.storedNt.Some? && WellSized(c) && k < 3
    ensures var v := Spellings(l)[k];
            var r := CheckV2(c, response, l.storedNt.value, l.challenge, l.clientUser, v.0, v.1);
            && (r.Some? <==> |l.challenge| == 8 && |response| >= 24 && SignedFor(c, l, response, v))
            && (r.Some? ==> r.value == c.sessKeyV2(Keyed(c, l, v).value, response[..16]))
  {
    if |response| >= 24 {
      var kr := Keyed(c, l, Spellings(l)[k]);
      assert response == response[..16] + response[16..];
      if kr.Some? && response == c.encryptV2(kr.value, l.challenge, response[16..]) + response[16..] {
        assert response[..16] == c.encryptV2(kr.value, l.challenge, response[16..]);
      }
    }
  }

  /** The three attempts find the first spelling that is right, and its key. */
  lemma TryV2Finds(c: Crypto, l: Logon, response: Blob)
    requires l.storedNt.Some? && WellSized(c)
    ensures var r := TryV2(c, l, response, l.storedNt.value);
            r.Some? ==> |response| >= 24 && exists k: nat ::
              && FirstSpelling(c, l, response, k) && (r.value.1, r.value.2) == Spellings(l)[k]
              && r.value.0 == c.sessKeyV2(Keyed(c, l, Spellings(l)[k]).value, response[..16])
  {
    CheckV2Is(c, l, response, 0);
    CheckV2Is(c, l, response, 1);
    CheckV2Is(c, l, response, 2);
    if TryV2(c, l, response, l.storedNt.value).Some? {
      if SignedFor(c, l, response, Spellings(l)[0]) {
        assert FirstSpelling(c, l, response, 0);
      } else if SignedFor(c, l, response, Spellings(l)[1]) {
        assert FirstSpelling(c, l, response, 1);
      } else {
        assert FirstSpelling(c, l, response, 2);
      }
    }
  }

  lemma TryV2Is(c: Crypto, l: Logon, response: Blob)
    requires l.storedNt.Some?
    requires WellSized(c)
    ensures TryV2(c, l, response, l.storedNt.value).Some? <==> ProvesV2(c, l, response)
  {
    CheckV2Is(c, l, response, 0);
    CheckV2Is(c, l, response, 1);
    CheckV2Is(c, l, response, 2);
  }

  /** A version 1 NT response that could be checked decides alone; nothing in the LM field is looked at then. */
  predicate DecidedByV1(s: Settings, l: Logon) {
    |l.nt| == 24 && l.storedNt.Some? && s.ntlmAuth
  }

  /** Which proofs of a password are accepted, field by field. */
  ghost predicate Proves(c: Crypto, s: Settings, l: Logon) {
    || (|l.nt| > 24 && ProvesV2(c, l, l.nt))
    || (s.ntlmAuth && ProvesV1(c, l, l.storedNt, l.nt))
    || (!DecidedByV1(s, l) &&
        (|| (s.lanmanAuth && !HasRealm(l.username) && ProvesV1(c, l, l.storedLm, l.lm))
         || ProvesV2(c, l, l.lm)
         || (s.ntlmAuth && ProvesV1(c, l, l.storedNt, l.lm))))
  }

  /** The password, sent in clear, hashes to what is stored; the LM hash counts only where no NT hash can be compared. */
  predicate ClearProves(c: Crypto, s: Settings, l: Logon) {
    if l.nt != [] && l.storedNt.Some? then c.mdfour(l.nt) == l.storedNt.value
    else
      && s.lanmanAuth && !HasRealm(l.username) && l.storedLm.Some? && l.lm != [] && c.fromDos(l.lm).Some?
      && c.desHash(c.fromDos(l.lm).value) == l.storedLm
  }

  /** There is an LM hash of the password sent in clear, and one to compare it with. */
  predicate ComparesLm(c: Crypto, l: Logon) {
    l.lm != [] && c.fromDos(l.lm).Some? && c.desHash(c.fromDos(l.lm).value).Some? && l.storedLm.Some?
  }

  /** The whole decision: accepted exactly with a proof, and which of the two errors it is otherwise. */
  lemma DecisionIs(c: Crypto, s: Settings, l: Logon)
    requires WellSized(c)
    ensures IsCleartext(l) ==> (Check(c, s, l).status == Ok <==> ClearProves(c, s, l))
    ensures !IsCleartext(l) ==> (Check(c, s, l).status == Ok <==> Proves(c, s, l))
    ensures !IsCleartext(l) && !Proves(c, s, l) ==>
              (Check(c, s, l).status == NotFound <==>
               HasRealm(l.username) && |l.lm| >= 24 && l.storedNt.Some? && !DecidedByV1(s, l))
    ensures IsCleartext(l) ==>
              (Check(c, s, l).status == NotFound <==>
               HasRealm(l.username) && !(l.nt != [] && l.storedNt.Some?) && (s.lanmanAuth || !ComparesLm(c, l)))
  {
    if l.storedNt.Some? {
      TryV2Is(c, l, l.nt);
      TryV2Is(c, l, l.lm);
    }
  }

  lemma SessKeyFollows(c: Crypto, a: Blob, b: Blob, hash: Blob, challenge: Blob, user: string, domain: string, upper: bool)
    requires CheckV2(c, a, hash, challenge, user, domain, upper).Some? && |b| >= 24
    ensures SessKeyV2(c, b, hash, challenge, user, domain, upper).Some?
  {
  }

  lemma KeySizesV2(c: Crypto, response: Blob, hash: Blob, challenge: Blob, user: string, domain: string, upper: bool)
    requires WellSized(c)
    ensures var k := CheckV2(c, response, hash, challenge, user, domain, upper); k.Some? ==> |k.value| == 16
    ensures var k := SessKeyV2(c, response, hash, challenge, user, domain, upper); k.Some? ==> |k.value| == 16
  {
  }

  lemma TryV2Sizes(c: Crypto, l: Logon, response: Blob, hash: Blob)
    requires WellSized(c)
    ensures var r := TryV2(c, l, response, hash);
            r.Some? ==> |r.value.0| == 16 && CheckV2(c, response, hash, l.challenge, l.clientUser, r.value.1, r.value.2) == Some(r.value.0)
  {
    KeySizesV2(c, response, hash, l.challenge, l.clientUser, l.clientDomain, false);
    KeySizesV2(c, response, hash, l.challenge, l.clientUser, l.clientDomain, true);
    KeySizesV2(c, response, hash, l.challenge, l.clientUser, "", false);
  }

  ghost predicate GoodKeys(o: Outcome) {
    && (|o.userKey| == 0 || |o.userKey| == 16) && (|o.lmKey| == 0 || |o.lmKey| == 8)
    && (o.via == NtlmV2 || o.via == LmV2 ==> |o.userKey| == 16 && o.lmKey == o.userKey[..8])
    && (o.status != Ok ==> o.userKey == [] && o.lmKey == [])
  }

  /** Session keys have their sizes on every path, and on the version 2 paths the LM key is the head of the user key. */
  lemma KeySizes(c: Crypto, s: Settings, l: Logon)
    requires WellSized(c) && (l.storedLm.Some? ==> |l.storedLm.value| == 16)
    ensures GoodKeys(Check(c, s, l))
  {
    if l.storedNt.Some? {
      var hash := l.storedNt.value;
      TryV2Sizes(c, l, l.nt, hash);
      TryV2Sizes(c, l, l.lm, hash);
      var t := TryV2(c, l, l.lm, hash);
      if t.Some? && |l.nt| > 24 {
        SessKeyFollows(c, l.lm, l.nt, hash, l.challenge, l.clientUser, t.value.1, t.value.2);
        KeySizesV2(c, l.nt, hash, l.challenge, l.clientUser, t.value.1, t.value.2);
      }
    }
    assert GoodKeys(CheckLmField(c, s, l));
  }

  /** The NT field decides nothing, so that the LM field is looked at. */
  ghost predicate LooksAtLm(c: Crypto, s: Settings, l: Logon) {
    !IsCleartext(l) && !(|l.nt| > 24 && ProvesV2(c, l, l.nt)) && !DecidedByV1(s, l)
  }

  ghost predicate LmProved(c: Crypto, s: Settings, l: Logon) {
    s.lanmanAuth && !HasRealm(l.username) && ProvesV1(c, l, l.storedLm, l.lm)
  }

  /** Which of the proofs counts when there are several. */
  lemma ViaIs(c: Crypto, s: Settings, l: Logon)
    requires WellSized(c)
    ensures var via := Check(c, s, l).via;
            && (via == Cleartext <==> l.cleartextAllowed && l.challenge == Zeros(8))
            && (via == NtlmV2 <==> !IsCleartext(l) && |l.nt| > 24 && ProvesV2(c, l, l.nt))
            && (via == NtlmV1 <==> !IsCleartext(l) && s.ntlmAuth && ProvesV1(c, l, l.storedNt, l.nt))
            && (via == Lm <==> LooksAtLm(c, s, l) && LmProved(c, s, l))
            && (via == LmV2 <==> LooksAtLm(c, s, l) && !LmProved(c, s, l) && ProvesV2(c, l, l.lm))
            && (via == NtInLmField <==>
                  LooksAtLm(c, s, l) && !LmProved(c, s, l) && !ProvesV2(c, l, l.lm) && s.ntlmAuth && ProvesV1(c, l, l.storedNt, l.lm))
  {
    if l.storedNt.Some? {
      TryV2Is(c, l, l.nt);
      TryV2Is(c, l, l.lm);
    }
  }

  /** The keys of a version 2 answer: signed comes from the response that proved the password, or from the NT response beside it. */
  ghost predicate KeysV2(c: Crypto, l: Logon, o: Outcome, response: Blob, signed: Blob)
    requires l.storedNt.Some? && |response| >= 16 && |signed| >= 16
  {
    exists k: nat ::
      && FirstSpelling(c, l, response, k)
      && var kr := Keyed(c, l, Spellings(l)[k]).value;
         && o.userKey == c.sessKeyV2(kr, c.encryptV2(kr, l.challenge, signed[16..]))
         && (signed == response ==> o.userKey == c.sessKeyV2(kr, response[..16]))
         && |o.userKey| >= 8 && o.lmKey == o.userKey[..8]
  }

  /** The odd keys of the LM answers. */
  predicate KeysLm(s: Settings, l: Logon, o: Outcome)
    requires l.storedLm.Some? ==> |l.storedLm.value| == 16
  {
    if s.lanmanAuth && l.storedLm.Some?
    then o.userKey == l.storedLm.value[..8] + [0, 0, 0, 0, 0, 0, 0, 0] && o.lmKey == l.storedLm.value[..8]
    else o.userKey == [] && o.lmKey == []
  }

  lemma SignedDigest(c: Crypto, l: Logon, response: Blob, v: (string, bool))
    requires WellSized(c) && l.storedNt.Some? && |response| >= 16 && SignedFor(c, l, response, v)
    ensures response[..16] == c.encryptV2(Keyed(c, l, v).value, l.challenge, response[16..])
  {
    var kr := Keyed(c, l, v).value;
    assert (c.encryptV2(kr, l.challenge, response[16..]) + response[16..])[..16] == c.encryptV2(kr, l.challenge, response[16..]);
  }

  lemma KeysOfLm(c: Crypto, s: Settings, l: Logon)
    requires WellSized(c) && l.storedNt.Some? && CheckLmField(c, s, l).via == LmV2
    ensures |l.lm| >= 24 && KeysV2(c, l, CheckLmField(c, s, l), l.lm, if |l.nt| > 24 then l.nt else l.lm)
  {
    TryV2Finds(c, l, l.lm);
    var t := TryV2(c, l, l.lm, l.storedNt.value).value;
    var k: nat :|
      && FirstSpelling(c, l, l.lm, k) && (t.1, t.2) == Spellings(l)[k]
      && t.0 == c.sessKeyV2(Keyed(c, l, Spellings(l)[k]).value, l.lm[..16]);
    SignedDigest(c, l, l.lm, Spellings(l)[k]);
    CheckV2Is(c, l, l.lm, k);
    var o, signed := CheckLmField(c, s, l), if |l.nt| > 24 then l.nt else l.lm;
    var kr := Keyed(c, l, Spellings(l)[k]).value;
    assert o.userKey == c.sessKeyV2(kr, c.encryptV2(kr, l.challenge, signed[16..]));
  }

  lemma KeysOfNt(c: Crypto, s: Settings, l: Logon)
    requires WellSized(c) && Check(c, s, l).via == NtlmV2
    ensures l.storedNt.Some? && |l.nt| > 24 && KeysV2(c, l, Check(c, s, l), l.nt, l.nt)
  {
    TryV2Finds(c, l, l.nt);
    var t := TryV2(c, l, l.nt, l.storedNt.value).value;
    var k: nat :|
      && FirstSpelling(c, l, l.nt, k) && (t.1, t.2) == Spellings(l)[k]
      && t.0 == c.sessKeyV2(Keyed(c, l, Spellings(l)[k]).value, l.nt[..16]);
    SignedDigest(c, l, l.nt, Spellings(l)[k]);
  }

  /**
   Which keys an accepted logon gets. Version 1: derived from the stored hash. Version 2: derived from the response and
   the keyed hash for the first spelling that is right; a version 2 answer in the LM field takes its keys from a
   longer NT response, if one came with it, although that did not prove the password. The LM answers: half the LM hash, or none.
   */
  lemma KeysAre(c: Crypto, s: Settings, l: Logon)
    requires WellSized(c) && (l.storedLm.Some? ==> |l.storedLm.value| == 16)
    ensures var o := Check(c, s, l);
            match o.via
            case NtlmV1 =>
              && l.storedNt.Some? && o.userKey == c.sessKeyV1(l.storedNt.value)
              && o.lmKey == (if s.lanmanAuth && l.storedLm.Some? then l.storedLm.value[..8] else [])
            case NtlmV2 => l.storedNt.Some? && |l.nt| > 24 && KeysV2(c, l, o, l.nt, l.nt)
            case LmV2 => l.storedNt.Some? && |l.lm| >= 24 && KeysV2(c, l, o, l.lm, if |l.nt| > 24 then l.nt else l.lm)
            case Lm => KeysLm(s, l, o)
            case NtInLmField => KeysLm(s, l, o)
            case _ => o.userKey == [] && o.lmKey == []
  {
    match Check(c, s, l).via
    case NtlmV2 => KeysOfNt(c, s, l);
    case LmV2 => KeysOfLm(c, s, l);
    case _ =>
  }

  // ----- encrypt_user_info -----

  datatype PasswordState = ResponseState | HashState | PlainState

  datatype Password = Response(lm: Blob, nt: Blob) | Hash(lanman: Option<Blob>, nt: Blob) | Plain(text: string)

  datatype UserInfo = UserInfo(mappedState: bool, passwordState: PasswordState, password: Password, account: string, domain: string)

  predicate Tagged(u: UserInfo) {
    match u.passwordState
    case ResponseState => u.password.Response?
    case HashState => u.password.Hash?
    case PlainState => u.password.Plain?
  }

  datatype Result = Encrypted(user: UserInfo) | InvalidParameter | ChallengeFailed | NoMemory

  /** lp_client_ntlmv2_auth and lp_client_lanman_auth, and the random or unset bytes the code uses. */
  datatype Client = Client(ntlmV2Auth: bool, lanmanAuth: bool, blobV2: Blob, randomV2: Blob, unset: Blob)

  function ToHash(c: Crypto, u: UserInfo): Result
    requires Tagged(u)
  {
    match u.password
    case Plain(text) => Encrypted(u.(mappedState := true, password := Hash(c.desHash(text), c.md4Hash(text))))
    case Hash(_, _) => Encrypted(u)
    case Response(_, _) => InvalidParameter
  }

  /** SMBNTLMv2encrypt_hash: the LMv2 and NTLMv2 responses; the domain is upper-cased. */
  function EncryptV2(c: Crypto, client: Client, user: string, domain: string, hash: Blob, challenge: Blob): Option<(Blob, Blob)> {
    match c.owfV2(hash, user, domain, true)
    case None => None
    case Some(kr) => Some((c.encryptV2(kr, challenge, client.randomV2) + client.randomV2, c.encryptV2(kr, challenge, client.blobV2) + client.blobV2))
  }

  /** The step from hashes to a response. The LM response is computed into the buffer of the NT response. */
  function HashToResponse(c: Crypto, client: Client, challenge: Option<Blob>, u: UserInfo): Result
    requires u.password.Hash?
  {
    match challenge
    case None => ChallengeFailed
    case Some(ch) =>
      if client.ntlmV2Auth then
        match EncryptV2(c, client, u.account, u.domain, u.password.nt, ch)
        case None => NoMemory
        case Some((lm, nt)) => Encrypted(u.(mappedState := false, password := Response(lm, nt)))
      else if client.lanmanAuth && u.password.lanman.Some? then
        Encrypted(u.(mappedState := false, password := Response(client.unset, c.owf(u.password.lanman.value, ch))))
      else
        Encrypted(u.(mappedState := false, password := Response(c.owf(u.password.nt, ch), c.owf(u.password.nt, ch))))
  }

  function Encrypt(c: Crypto, client: Client, challenge: Option<Blob>, to: PasswordState, u: UserInfo): Result
    requires Tagged(u)
  {
    match to
    case PlainState => InvalidParameter
    case HashState => ToHash(c, u)
    case ResponseState =>
      if u.password.Response? then Encrypted(u)
      else
        var hashed := ToHash(c, u);
        if hashed.Encrypted? then HashToResponse(c, client, challenge, hashed.user) else hashed
  }

  /** The conversion leaves the tag of the password alone, so that it describes the result only if nothing was converted. */
  lemma TagIsStale(c: Crypto, client: Client, challenge: Option<Blob>, to: PasswordState, u: UserInfo)
    requires Tagged(u) && Encrypt(c, client, challenge, to, u).Encrypted?
    ensures var v := Encrypt(c, client, challenge, to, u).user;
            && v.passwordState == u.passwordState
            && (Tagged(v) <==> u.passwordState == to)
            && (Tagged(v) ==> v == u) && (!Tagged(v) ==> v.mappedState == (to != ResponseState))
            && v.account == u.account && v.domain == u.domain
  {
  }

  /** What the server sees of a user who answers its challenge with that response. */
  function LogonOf(u: UserInfo, username: string, challenge: Blob, storedLm: Option<Blob>, storedNt: Blob): Logon
    requires u.password.Response?
  {
    Logon(false, challenge, u.password.lm, u.password.nt, username, u.account, u.domain, storedLm, Some(storedNt))
  }

  /** An LM response is sent beside the NT one; it then takes the place of the NT response, and its own is never set. */
  predicate SendsLm(client: Client, lanman: Option<Blob>) {
    client.lanmanAuth && lanman.Some?
  }

  /**
   When a server accepts a version 1 response built from these hashes. One that takes NTLMv1 does exactly when no LM
   response was to be sent with it, or the two hashes happen to give the same response; one that does not take it
   looks at what was sent in the LM field.
   */
  ghost predicate AcceptsV1(c: Crypto, s: Settings, client: Client, l: Logon, lanman: Option<Blob>, nt: Blob) {
    if s.ntlmAuth then
      !SendsLm(client, lanman) || c.owf(lanman.value, l.challenge) == c.owf(nt, l.challenge)
    else
      var lm := if SendsLm(client, lanman) then client.unset else c.owf(nt, l.challenge);
      (s.lanmanAuth && !HasRealm(l.username) && ProvesV1(c, l, l.storedLm, lm)) || ProvesV2(c, l, lm)
  }

  lemma V1Accepted(c: Crypto, s: Settings, client: Client, ch: Blob, u: UserInfo, username: string, storedLm: Option<Blob>)
    requires WellSized(c) && |ch| == 8 && !client.ntlmV2Auth && u.passwordState == HashState && u.password.Hash?
    ensures var r := Encrypt(c, client, Some(ch), ResponseState, u);
            && r.Encrypted? && r.user.password.Response?
            && var l := LogonOf(r.user, username, ch, storedLm, u.password.nt);
               (Check(c, s, l).status == Ok <==> AcceptsV1(c, s, client, l, u.password.lanman, u.password.nt))
  {
    var r := Encrypt(c, client, Some(ch), ResponseState, u);
    DecisionIs(c, s, LogonOf(r.user, username, ch, storedLm, u.password.nt));
  }

  /** A toy cipher: a response is the first byte of the hash, and zeros. */
  const TOY: Crypto := Crypto(
    (h: Blob, ch: Blob) => [if h == [] then 0 else h[0]] + Zeros(23),
    (h: Blob) => Zeros(16),
    (h: Blob, user: string, domain: string, upper: bool) => None,
    (k: Blob, ch: Blob, d: Blob) => Zeros(16),
    (k: Blob, r: Blob) => Zeros(16),
    (b: Blob) => Zeros(16),
    (b: Blob) => None,
    (p: string) => None,
    (p: string) => Zeros(16))

  /** A user with both hashes, and a client that sends both responses, is turned away by a server that knows both hashes and takes both schemes. */
  lemma RightHashesRejected(username: string, unset: Blob)
    ensures var u := UserInfo(true, HashState, Hash(Some([1]), [2]), "user", "domain");
            var r := Encrypt(TOY, Client(false, true, [], [], unset), Some(Zeros(8)), ResponseState, u);
            && r.Encrypted? && r.user.password.Response?
            && Check(TOY, Settings(true, true), LogonOf(r.user, username, Zeros(8), Some([1]), [2])).status == WrongPassword
  {
    assert WellSized(TOY);
    var u := UserInfo(true, HashState, Hash(Some([1]), [2]), "user", "domain");
    var client := Client(false, true, [], [], unset);
    V1Accepted(TOY, Settings(true, true), client, Zeros(8), u, username, Some([1]));
    assert TOY.owf([1], Zeros(8))[0] == 1 && TOY.owf([2], Zeros(8))[0] == 2;
  }

  /** A version 2 response built from the stored hash is always accepted. */
  lemma V2Accepted(c: Crypto, s: Settings, client: Client, ch: Blob, u: UserInfo, username: string, storedLm: Option<Blob>)
    requires WellSized(c) && |ch| == 8 && client.ntlmV2Auth && u.passwordState == HashState && u.password.Hash?
    requires |client.blobV2| > 8 && c.owfV2(u.password.nt, u.account, u.domain, true).Some?
    ensures var r := Encrypt(c, client, Some(ch), ResponseState, u);
            && r.Encrypted? && r.user.password.Response?
            && Check(c, s, LogonOf(r.user, username, ch, storedLm, u.password.nt)).status == Ok
            && Check(c, s, LogonOf(r.user, username, ch, storedLm, u.password.nt)).via == NtlmV2
  {
    var kr := c.owfV2(u.password.nt, u.account, u.domain, true).value;
    var nt := c.encryptV2(kr, ch, client.blobV2) + client.blobV2;
    assert nt[..16] == c.encryptV2(kr, ch, client.blobV2) && nt[16..] == client.blobV2;
    assert CheckV2(c, nt, u.password.nt, ch, u.account, u.domain, true).Some?;
  }

  /**
   The key that the server derives is the one that the client derives from its own response, unless the response
   happens to be right for the domain as given too, with another keyed hash.
   */
  lemma KeysAgree(c: Crypto, s: Settings, client: Client, ch: Blob, u: UserInfo, username: string, storedLm: Option<Blob>)
    requires WellSized(c) && |ch| == 8 && client.ntlmV2Auth && u.passwordState == HashState && u.password.Hash?
    requires |client.blobV2| > 8 && c.owfV2(u.password.nt, u.account, u.domain, true).Some?
    requires storedLm.Some? ==> |storedLm.value| == 16
    ensures var r := Encrypt(c, client, Some(ch), ResponseState, u);
            && r.Encrypted? && r.user.password.Response? && |r.user.password.nt| > 24
            && var l, kr := LogonOf(r.user, username, ch, storedLm, u.password.nt), c.owfV2(u.password.nt, u.account, u.domain, true);
               (SignedFor(c, l, l.nt, (u.domain, false)) && c.owfV2(u.password.nt, u.account, u.domain, false) != kr)
               || Check(c, s, l).userKey == c.sessKeyV2(kr.value, l.nt[..16])
  {
    V2Accepted(c, s, client, ch, u, username, storedLm);
    var l := LogonOf(Encrypt(c, client, Some(ch), ResponseState, u).user, username, ch, storedLm, u.password.nt);
    KeysAre(c, s, l);
    var kr := c.owfV2(u.password.nt, u.account, u.domain, true).value;
    assert l.nt[16..] == client.blobV2;
    assert SignedFor(c, l, l.nt, Spellings(l)[1]);
    var o := Check(c, s, l);
    var k: nat :| FirstSpelling(c, l, l.nt, k) && o.userKey == c.sessKeyV2(Keyed(c, l, Spellings(l)[k]).value, l.nt[..16]);
    assert k <= 1;
  }

  /** The response in the LM field would do alone: a server that sees no NT response accepts it. */
  lemma LmV2Accepted(c: Crypto, s: Settings, client: Client, ch: Blob, u: UserInfo, username: string, storedLm: Option<Blob>)
    requires WellSized(c) && |ch| == 8 && client.ntlmV2Auth && u.passwordState == HashState && u.password.Hash?
    requires |client.randomV2| == 8 && c.owfV2(u.password.nt, u.account, u.domain, true).Some?
    ensures var r := Encrypt(c, client, Some(ch), ResponseState, u);
            && r.Encrypted? && r.user.password.Response? && |r.user.password.lm| == 24
            && var l := LogonOf(r.user, username, ch, storedLm, u.password.nt).(nt := []);
               Check(c, s, l).status == Ok && (Check(c, s, l).via == LmV2 || Check(c, s, l).via == Lm)
  {
    var kr := c.owfV2(u.password.nt, u.account, u.domain, true).value;
    var lm := c.encryptV2(kr, ch, client.randomV2) + client.randomV2;
    assert lm[..16] == c.encryptV2(kr, ch, client.randomV2) && lm[16..] == client.randomV2;
    var l := LogonOf(Encrypt(c, client, Some(ch), ResponseState, u).user, username, ch, storedLm, u.password.nt).(nt := []);
    assert SignedFor(c, l, l.lm, Spellings(l)[1]);
    DecisionIs(c, s, l);
    ViaIs(c, s, l);
  }

  /** A plain password meets the hashes of itself: the whole way from the password to the server's decision. */
  lemma PlainAccepted(c: Crypto, s: Settings, client: Client, ch: Blob, u: UserInfo, username: string)
    requires WellSized(c) && |ch| == 8 && !client.ntlmV2Auth && u.passwordState == PlainState && u.password.Plain?
    ensures var r := Encrypt(c, client, Some(ch), ResponseState, u);
            && r.Encrypted? && r.user.password.Response?
            && var lanman, nt := c.desHash(u.password.text), c.md4Hash(u.password.text);
               var l := LogonOf(r.user, username, ch, lanman, nt);
               (Check(c, s, l).status == Ok <==> AcceptsV1(c, s, client, l, lanman, nt))
  {
    var r := Encrypt(c, client, Some(ch), ResponseState, u);
    DecisionIs(c, s, LogonOf(r.user, username, ch, c.desHash(u.password.text), c.md4Hash(u.password.text)));
  }
}
