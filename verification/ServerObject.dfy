/** The server-object phase of the domain join, against a directory whose every operation may be refused. */
module ServerObject {
  import opened Wrappers

  /** A distinguished name, up to the comparison of ldb_dn_compare. */
  type Dn = string

  /** A directory object: its serverReference attribute, and the rest of it. */
  datatype Object = Object(serverReference: Option<Dn>, objectClass: string, systemFlags: string)

  type Directory = map<Dn, Object>

  datatype Code = Success | NoSuchObject | AttributeOrValueExists | EntryAlreadyExists | Other(code: nat)

  datatype Status = Ok | NameCollision | Ldap(code: Code)

  predicate Refers(dir: Directory, d: Dn, target: Dn) {
    d in dir && dir[d].serverReference == Some(target)
  }

  /** The directory server. serverReferenceBL is computed, so back links are always consistent. */
  class Ldb {
    var dir: Directory
    ghost var writes: nat    // add and modify requests
    ghost var refused: bool  // a request that could have worked was turned down

    constructor (dir: Directory)
      ensures this.dir == dir && writes == 0 && !refused
    {
      this.dir := dir;
      writes, refused := 0, false;
    }

    method Search(dn: Dn) returns (ret: Code, entry: Option<Object>)
      modifies this`refused
      ensures ret == Success <==> entry.Some?
      ensures entry.Some? ==> dn in dir && entry.value == dir[dn]
      ensures ret == NoSuchObject ==> dn !in dir
      ensures refused == (old(refused) || (ret != Success && ret != NoSuchObject))
      ensures !refused ==> (ret == Success <==> dn in dir)
    {
      var refuse: bool := *;
      if refuse {
        refused := true;
        return Other(1), None;
      }
      if dn in dir {
        return Success, Some(dir[dn]);
      }
      return NoSuchObject, None;
    }

    /** A base search for serverReferenceBL: some object that refers to dn, if there is one. */
    method SearchBackLink(dn: Dn) returns (ret: Code, link: Option<Dn>)
      modifies this`refused
      ensures old(refused) ==> refused
      ensures link.Some? ==> ret == Success && Refers(dir, link.value, dn)
      ensures ret == Success && link.None? ==> forall d :: !Refers(dir, d, dn)
      ensures !refused ==> (ret == Success <==> dn in dir)
    {
      var refuse: bool := *;
      if refuse {
        refused := true;
        return Other(1), None;
      }
      if dn !in dir {
        return NoSuchObject, None;
      }
      if exists d :: d in dir && Refers(dir, d, dn) {
        var d :| d in dir && Refers(dir, d, dn);
        return Success, Some(d);
      }
      return Success, None;
    }

    method Add(dn: Dn, entry: Object) returns (ret: Code)
      modifies this
      ensures writes == old(writes) + 1
      ensures ret == Success ==> dn !in old(dir) && dir == old(dir)[dn := entry] && refused == old(refused)
      ensures ret != Success ==> dir == old(dir) && (refused || dn in dir)
      ensures old(refused) ==> refused
    {
      writes := writes + 1;
      var refuse: bool := *;
      if refuse {
        refused := true;
        return Other(1);
      }
      if dn in dir {
        return EntryAlreadyExists;
      }
      dir := dir[dn := entry];
      return Success;
    }

    /** Sets serverReference; an addition is turned down when the single value is there already. */
    method Modify(dn: Dn, reference: Dn, replace: bool) returns (ret: Code)
      modifies this
      ensures writes == old(writes) + 1
      ensures ret == Success ==> dn in old(dir) && dir == old(dir)[dn := old(dir)[dn].(serverReference := Some(reference))]
      ensures ret != Success ==> dir == old(dir)
      ensures ret == AttributeOrValueExists ==> !replace && dn in dir && dir[dn].serverReference.Some? && refused == old(refused)
      ensures !refused && dn in old(dir) ==> ret == Success || ret == AttributeOrValueExists
      ensures old(refused) ==> refused
    {
      writes := writes + 1;
      var refuse: bool := *;
      if refuse {
        refused := true;
        return Other(1);
      }
      if dn !in dir {
        return NoSuchObject;
      }
      if !replace && dir[dn].serverReference.Some? {
        return AttributeOrValueExists;
      }
      dir := dir[dn := dir[dn].(serverReference := Some(reference))];
      return Success;
    }
  }

  /** The standard place holds an object of another computer. */
  predicate Taken(dir: Directory, place: Dn, computer: Dn) {
    place in dir && dir[place].serverReference.Some? && dir[place].serverReference.value != computer
  }

  function NewServer(computer: Dn): Object {
    Object(Some(computer), "server", "50000000")
  }

  /** The directory with the given object referring to the computer: changed in that attribute, or created. */
  function WithReference(dir: Directory, d: Dn, computer: Dn): Directory {
    dir[d := if d in dir then dir[d].(serverReference := Some(computer)) else NewServer(computer)]
  }

  /** libnet_BecomeDC_state as far as this phase uses it. */
  class Phase {
    const ldb: Ldb
    const computerDn: Dn
    const standardDn: Dn  // CN=<netbios name>,CN=Servers,CN=<site>,CN=Sites,<config dn>
    var serverDn: Option<Dn>

    constructor (ldb: Ldb, computerDn: Dn, standardDn: Dn)
      ensures this.ldb == ldb && this.computerDn == computerDn && this.standardDn == standardDn && serverDn == None
    {
      this.ldb, this.computerDn, this.standardDn := ldb, computerDn, standardDn;
      serverDn := None;
    }

    /** becomeDC_ldap1_server_object_1 */
    method Lookup() returns (s: Status)
      requires serverDn == None
      modifies this, ldb`refused
      ensures old(ldb.refused) ==> ldb.refused
      ensures s == Ok ==> !Taken(ldb.dir, standardDn, computerDn)
      ensures s == Ok ==> serverDn == if standardDn in ldb.dir then Some(standardDn) else None
      ensures s == NameCollision ==> Taken(ldb.dir, standardDn, computerDn)
      ensures s.Ldap? ==> ldb.refused
    {
      var ret, entry := ldb.Search(standardDn);
      if ret == NoSuchObject {
        return Ok;
      } else if ret != Success {
        return Ldap(ret);
      }
      var reference := entry.value.serverReference;
      if reference.Some? && reference.value != computerDn {
        return NameCollision;
      }
      serverDn := Some(standardDn);
      return Ok;
    }

    /** becomeDC_ldap1_server_object_2 */
    method LookupBackLink() returns (s: Status)
      modifies this, ldb`refused
      ensures old(ldb.refused) ==> ldb.refused
      ensures old(serverDn).Some? ==> s == Ok && serverDn == old(serverDn)
      ensures s == Ok && old(serverDn).None? ==>
                if serverDn.Some? then Refers(ldb.dir, serverDn.value, computerDn)
                else forall d :: !Refers(ldb.dir, d, computerDn)
      ensures s != Ok ==> s.Ldap? && serverDn == old(serverDn) && (ldb.refused || computerDn !in ldb.dir)
    {
      if serverDn.Some? {
        return Ok;
      }
      var ret, link := ldb.SearchBackLink(computerDn);
      if ret != Success {
        return Ldap(ret);
      }
      serverDn := link;
      return Ok;
    }

    /** becomeDC_ldap1_server_object_add */
    method AddObject() returns (s: Status)
      modifies this, ldb
      ensures old(ldb.refused) ==> ldb.refused
      ensures old(serverDn).Some? ==> s == Ok && serverDn == old(serverDn) && ldb.dir == old(ldb.dir) && ldb.writes == old(ldb.writes)
      ensures s == Ok && old(serverDn).None? ==>
                && serverDn == Some(standardDn) && standardDn !in old(ldb.dir)
                && ldb.dir == old(ldb.dir)[standardDn := NewServer(computerDn)]
      ensures s != Ok ==> s.Ldap? && ldb.dir == old(ldb.dir) && (ldb.refused || standardDn in ldb.dir)
    {
      if serverDn.Some? {
        return Ok;
      }
      var ret := ldb.Add(standardDn, NewServer(computerDn));
      if ret != Success {
        return Ldap(ret);
      }
      serverDn := Some(standardDn);
      return Ok;
    }

    /** becomeDC_ldap1_server_object_modify: add the reference, or replace it when there is one. */
    method SetReference() returns (s: Status)
      requires serverDn.Some?
      modifies ldb
      ensures old(ldb.refused) ==> ldb.refused
      ensures s == Ok ==> serverDn.value in old(ldb.dir) && ldb.dir == WithReference(old(ldb.dir), serverDn.value, computerDn)
      ensures s != Ok ==> s.Ldap? && ldb.dir == old(ldb.dir) && (ldb.refused || serverDn.value !in ldb.dir)
    {
      var ret := ldb.Modify(serverDn.value, computerDn, false);
      if ret == Success {
        return Ok;
      } else if ret != AttributeOrValueExists {
        return Ldap(ret);
      }
      ret := ldb.Modify(serverDn.value, computerDn, true);
      if ret != Success {
        return Ldap(ret);
      }
      return Ok;
    }

    /** The four calls in the order of becomeDC_connect_ldap1. */
    method Run() returns (s: Status, done: nat)
      requires serverDn == None
      modifies this, ldb
      ensures done <= 4 && (s == Ok <==> done == 4) && (s == NameCollision ==> done == 0)
      ensures old(ldb.refused) ==> ldb.refused
      ensures s == Ok ==> serverDn.Some? && Refers(ldb.dir, serverDn.value, computerDn)
      ensures s == Ok ==> ldb.dir == WithReference(old(ldb.dir), serverDn.value, computerDn)
      ensures s == Ok && serverDn.value in old(ldb.dir) ==>
                serverDn.value == standardDn || Refers(old(ldb.dir), serverDn.value, computerDn)
      ensures s == Ok && serverDn.value !in old(ldb.dir) ==>
                && serverDn.value == standardDn && (forall d :: !Refers(old(ldb.dir), d, computerDn))
                && ldb.dir[standardDn] == Object(Some(computerDn), "server", "50000000")
      ensures s == Ok ==> standardDn in ldb.dir ==> Refers(ldb.dir, standardDn, computerDn)
      ensures s == NameCollision ==> Taken(old(ldb.dir), standardDn, computerDn) && ldb.dir == old(ldb.dir) && ldb.writes == old(ldb.writes)
      ensures Taken(old(ldb.dir), standardDn, computerDn) ==> s != Ok && ldb.dir == old(ldb.dir) && ldb.writes == old(ldb.writes)
      ensures s.Ldap? ==> ldb.dir == old(ldb.dir) || (standardDn !in old(ldb.dir) && ldb.dir == old(ldb.dir)[standardDn := NewServer(computerDn)])
      ensures s.Ldap? && (exists d :: Refers(old(ldb.dir), d, computerDn)) ==> ldb.dir == old(ldb.dir)
      ensures !ldb.refused && computerDn in old(ldb.dir) ==>
                s == if Taken(old(ldb.dir), standardDn, computerDn) then NameCollision else Ok
    {
      done := 0;
      s := Lookup();
      if s != Ok {
        return;
      }
      done := 1;
      s := LookupBackLink();
      if s != Ok {
        return;
      }
      done := 2;
      s := AddObject();
      if s != Ok {
        return;
      }
      done := 3;
      s := SetReference();
      if s == Ok {
        done := 4;
      }
    }
  }

  lemma ReferenceThere(dir: Directory, d: Dn, computer: Dn)
    ensures Refers(dir, d, computer) <==> d in dir && WithReference(dir, d, computer) == dir
  {
    if d in dir && WithReference(dir, d, computer) == dir {
      assert dir[d] == WithReference(dir, d, computer)[d];
    }
  }

  /** A directory in which the phase has nothing left to do. */
  ghost predicate Settled(dir: Directory, standardDn: Dn, computerDn: Dn) {
    && (exists d :: Refers(dir, d, computerDn))
    && (standardDn in dir ==> Refers(dir, standardDn, computerDn))
  }

  /** Running the phase again, whatever the server then refuses, leaves the directory as the first run left it. */
  method RunTwice(ldb: Ldb, computerDn: Dn, standardDn: Dn) returns (first: Status, second: Status, ghost between: Directory)
    modifies ldb
    ensures first == Ok ==> Settled(between, standardDn, computerDn) && ldb.dir == between && second != NameCollision
  {
    var phase := new Phase(ldb, computerDn, standardDn);
    var steps;
    first, steps := phase.Run();
    between := ldb.dir;
    var again := new Phase(ldb, computerDn, standardDn);
    second, steps := again.Run();
    if first == Ok {
      assert Refers(between, phase.serverDn.value, computerDn);
      if second == Ok {
        ReferenceThere(between, again.serverDn.value, computerDn);
      }
    }
  }
}
