/** smbcli_list: the old-style and the trans2 paging loops, and the one listing that both of them deliver. */
module DirectoryListing {

  /** An entry as the server keeps it; key is the old-style resume information. */
  datatype Entry = Entry(name: string, shortName: string, attrib: nat, size: nat, mtime: int, key: nat)

  datatype FileInfo = FileInfo(name: string, shortName: string, attrib: nat, size: nat, mtime: int)

  datatype Level = Standard | BothDirectoryInfo | Search

  function Interpret(level: Level, e: Entry): FileInfo {
    FileInfo(e.name, if level == BothDirectoryInfo then e.shortName else e.name, e.attrib, e.size, e.mtime)
  }

  /** The listing itself: every matching entry, in server order. */
  function Interpreted(level: Level, es: seq<Entry>): seq<FileInfo> {
    seq(|es|, i requires 0 <= i < |es| => Interpret(level, es[i]))
  }

  /** How a server tells that there is nothing left. */
  datatype Ending = EndOfSearchFlag | EmptyPage | NoMoreFilesStatus

  datatype Status = Ok | NoMoreFiles | Failed

  /** Pages hold between one entry and the number asked for; any request may fail. */
  class Server {
    const entries: seq<Entry>
    const ending: Ending
    const refusesNoMatch: bool  // whether a first search without a match is an error
    ghost var failed: bool
    ghost var asked: seq<nat>   // for how many entries each request asked

    ghost predicate Valid() {
      forall i, j :: 0 <= i < j < |entries| ==> entries[i].name != entries[j].name && entries[i].key != entries[j].key
    }

    constructor (entries: seq<Entry>, ending: Ending, refusesNoMatch: bool)
      requires forall i, j :: 0 <= i < j < |entries| ==> entries[i].name != entries[j].name && entries[i].key != entries[j].key
      ensures Valid() && !failed && asked == []
      ensures this.entries == entries && this.ending == ending && this.refusesNoMatch == refusesNoMatch
    {
      this.entries, this.ending, this.refusesNoMatch := entries, ending, refusesNoMatch;
      failed, asked := false, [];
    }

    ghost predicate PageAfter(k: nat, max: nat, status: Status, page: seq<Entry>, eos: bool)
      requires k <= |entries|
      reads this
    {
      match status
      case Failed => failed
      case NoMoreFiles => k == |entries| && ending.NoMoreFilesStatus?
      case Ok =>
        && k + |page| <= |entries| && page == entries[k..k + |page|] && |page| <= max
        && (page == [] ==> k == |entries| && !ending.NoMoreFilesStatus?)
        && (eos <==> ending.EndOfSearchFlag? && k + |page| == |entries|)
    }

    /** The page after the first k entries. */
    method Page(k: nat, max: nat) returns (status: Status, page: seq<Entry>, eos: bool)
      requires 0 < k <= |entries| && max > 0
      modifies this`failed, this`asked
      ensures (old(failed) ==> failed) && asked == old(asked) + [max]
      ensures PageAfter(k, max, status, page, eos)
    {
      page, eos, asked := [], false, asked + [max];
      var fail: bool := *;
      if fail {
        failed := true;
        return Failed, [], false;
      }
      if k == |entries| {
        eos := ending.EndOfSearchFlag?;
        status := if ending == NoMoreFilesStatus then NoMoreFiles else Ok;
      } else {
        var m :| 0 < m <= max && k + m <= |entries|;
        status, page, eos := Ok, entries[k..k + m], ending.EndOfSearchFlag? && k + m == |entries|;
      }
    }

    method First(max: nat) returns (status: Status, page: seq<Entry>, eos: bool)
      requires max > 0
      modifies this`failed, this`asked
      ensures (old(failed) ==> failed) && asked == old(asked) + [max]
      ensures status.Failed? ==> failed || (entries == [] && refusesNoMatch)
      ensures !status.NoMoreFiles? && (entries == [] ==> page == [])
      ensures status.Ok? && entries == [] ==> !refusesNoMatch
      ensures status.Ok? && entries != [] ==> page != [] && PageAfter(0, max, status, page, eos)
    {
      page, eos, asked := [], false, asked + [max];
      var fail: bool := *;
      if fail {
        failed := true;
        return Failed, [], false;
      }
      if entries == [] {
        return if refusesNoMatch then Failed else Ok, [], true;
      }
      var m :| 0 < m <= max && m <= |entries|;
      return Ok, entries[..m], ending.EndOfSearchFlag? && m == |entries|;
    }

    /** TRANS2_FIND_NEXT2: resumes after a name. */
    method NextByName(name: string, max: nat, ghost k: nat) returns (status: Status, page: seq<Entry>, eos: bool)
      requires Valid() && 0 < k <= |entries| && entries[k - 1].name == name && max > 0
      modifies this`failed, this`asked
      ensures (old(failed) ==> failed) && asked == old(asked) + [max]
      ensures PageAfter(k, max, status, page, eos)
    {
      var i := 0;
      while entries[i].name != name
        invariant 0 <= i < k
        decreases k - i
      {
        i := i + 1;
      }
      status, page, eos := Page(i + 1, max);
    }

    /** SMBsearch: resumes after a key. */
    method NextByKey(key: nat, max: nat, ghost k: nat) returns (status: Status, page: seq<Entry>)
      requires Valid() && 0 < k <= |entries| && entries[k - 1].key == key && max > 0
      modifies this`failed, this`asked
      ensures (old(failed) ==> failed) && asked == old(asked) + [max]
      ensures exists eos :: PageAfter(k, max, status, page, eos)
    {
      var i := 0;
      while entries[i].key != key
        invariant 0 <= i < k
        decreases k - i
      {
        i := i + 1;
      }
      var eos;
      status, page, eos := Page(i + 1, max);
    }
  }

  /** From the given one on, each request asks for so many entries. */
  ghost predicate EachAsks(asked: seq<nat>, from: nat, max: nat) {
    forall i :: from <= i < |asked| ==> asked[i] == max
  }

  /** struct search_private and the two callbacks. */
  class SearchState {
    const level: Level
    var dirlist: seq<FileInfo>
    var dirlistLen: nat
    var totalReceived: nat
    var lastName: string
    var id: nat

    constructor (level: Level)
      ensures this.level == level && dirlist == [] && dirlistLen == 0 && totalReceived == 0
    {
      this.level := level;
      dirlist, dirlistLen, totalReceived, lastName, id := [], 0, 0, "", 0;
    }

    /** The first k entries have been collected, and the resume information is that of the last of them. */
    ghost predicate Holds(es: seq<Entry>, k: nat)
      reads this
    {
      && k <= |es|
      && dirlist == Interpreted(level, es[..k])
      && dirlistLen == totalReceived == k
      && (k > 0 ==> lastName == es[k - 1].name && id == es[k - 1].key)
    }

    method Callback(e: Entry)
      requires dirlistLen == totalReceived == |dirlist|
      modifies this
      ensures dirlist == old(dirlist) + [Interpret(level, e)]
      ensures dirlistLen == totalReceived == old(totalReceived) + 1
      ensures lastName == e.name && id == e.key
    {
      dirlist := dirlist + [Interpret(level, e)];
      dirlistLen := dirlistLen + 1;
      lastName := dirlist[totalReceived].name;
      totalReceived := totalReceived + 1;
      id := e.key;
    }

    /** The callbacks for one page. */
    method Receive(page: seq<Entry>, ghost es: seq<Entry>, ghost k: nat)
      requires Holds(es, k) && k + |page| <= |es| && page == es[k..k + |page|]
      modifies this
      ensures Holds(es, k + |page|)
    {
      for i := 0 to |page|
        invariant Holds(es, k + i)
      {
        Callback(page[i]);
        assert page[i] == es[k + i];
        assert es[..k + i + 1] == es[..k + i] + [es[k + i]];
      }
    }
  }

  /** The calls of the caller's function on the collected list. */
  method CallEach(state: SearchState) returns (calls: seq<FileInfo>)
    requires state.dirlistLen == state.totalReceived == |state.dirlist|
    ensures calls == state.dirlist
  {
    calls := [];
    for i := 0 to state.totalReceived
      invariant calls == state.dirlist[..i]
    {
      calls := calls + [state.dirlist[i]];
    }
  }

  /** smbcli_list_new: the trans2 loop. */
  method ListNew(server: Server, level: Level) returns (r: int, calls: seq<FileInfo>)
    requires server.Valid()
    modifies server`failed, server`asked
    ensures r == -1 ==> calls == []
    ensures r != -1 ==> r == |server.entries| && calls == Interpreted(level, server.entries)
    ensures r == -1 && !server.failed ==>
              (if server.entries == [] then server.refusesNoMatch else server.ending.NoMoreFilesStatus?)
    ensures r != -1 ==> !(if server.entries == [] then server.refusesNoMatch else server.ending.NoMoreFilesStatus?)
    ensures EachAsks(server.asked, |old(server.asked)|, 512)
  {
    calls := [];
    var state := new SearchState(level);
    assert server.entries[..0] == [];
    var status, page, eos := server.First(512);
    if !status.Ok? {
      return -1, [];
    }
    state.Receive(page, server.entries, 0);
    ghost var k := |page|;
    while page != [] && !eos
      invariant state.Holds(server.entries, k) && |page| <= k
      invariant EachAsks(server.asked, |old(server.asked)|, 512) && |server.asked| >= |old(server.asked)|
      invariant page == [] || eos ==> k == |server.entries| && (k > 0 ==> !server.ending.NoMoreFilesStatus?)
      decreases |server.entries| - k, page != [] && !eos
    {
      status, page, eos := server.NextByName(state.lastName, 512, k);
      if !status.Ok? {
        return -1, [];
      }
      state.Receive(page, server.entries, k);
      k := k + |page|;
    }
    assert server.entries[..k] == server.entries;
    calls := CallEach(state);
    r := state.totalReceived;
  }

  /** smbcli_list_old: the SMBsearch loop. */
  method ListOld(server: Server) returns (r: int, calls: seq<FileInfo>)
    requires server.Valid()
    modifies server`failed, server`asked
    ensures r == -1 ==> calls == []
    ensures r != -1 ==> r == |server.entries| && calls == Interpreted(Search, server.entries)
    ensures r == -1 && !server.failed ==> server.entries == [] && server.refusesNoMatch
    ensures r != -1 ==> !(server.entries == [] && server.refusesNoMatch)
    ensures EachAsks(server.asked, |old(server.asked)|, 500)
  {
    calls := [];
    var state := new SearchState(Search);
    assert server.entries[..0] == [];
    var status, page, eos := server.First(500);
    if !status.Ok? {
      return -1, [];
    }
    state.Receive(page, server.entries, 0);
    ghost var k := |page|;
    while page != []
      invariant state.Holds(server.entries, k) && |page| <= k
      invariant EachAsks(server.asked, |old(server.asked)|, 500) && |server.asked| >= |old(server.asked)|
      invariant page == [] ==> k == |server.entries|
      decreases |server.entries| - k, page != []
    {
      status, page := server.NextByKey(state.id, 500, k);
      if status.NoMoreFiles? {
        break;
      }
      if !status.Ok? {
        return -1, [];
      }
      state.Receive(page, server.entries, k);
      k := k + |page|;
    }
    assert server.entries[..k] == server.entries;
    calls := CallEach(state);
    r := state.totalReceived;
  }

  /** Whether a listing over a connection that does not fail ends in an error. */
  predicate Refused(oldProtocol: bool, entries: seq<Entry>, ending: Ending, refusesNoMatch: bool) {
    if entries == [] then refusesNoMatch else !oldProtocol && ending.NoMoreFilesStatus?
  }

  /** The caller is given the entries in order, each with its own name, attributes, size and time, and its short name where there is one. */
  ghost predicate Delivered(calls: seq<FileInfo>, entries: seq<Entry>, shortNames: bool) {
    && |calls| == |entries|
    && forall i :: 0 <= i < |calls| ==>
         && calls[i].name == entries[i].name && calls[i].attrib == entries[i].attrib
         && calls[i].size == entries[i].size && calls[i].mtime == entries[i].mtime
         && calls[i].shortName == if shortNames then entries[i].shortName else entries[i].name
  }

  /** smbcli_list: the protocol decides between the two loops, capabilities decide the level of the second. */
  method List(server: Server, oldProtocol: bool, ntSmbs: bool) returns (r: int, calls: seq<FileInfo>)
    requires server.Valid() && !server.failed
    modifies server`failed, server`asked
    ensures !server.failed ==>
              (r == -1 <==> Refused(oldProtocol, server.entries, server.ending, server.refusesNoMatch))
    ensures r == -1 ==> calls == []
    ensures r != -1 ==> r == |server.entries|
    ensures r != -1 ==>
              calls == Interpreted(if oldProtocol then Search else if ntSmbs then BothDirectoryInfo else Standard, server.entries)
    ensures EachAsks(server.asked, |old(server.asked)|, if oldProtocol then 500 else 512)
    ensures r != -1 ==> Delivered(calls, server.entries, !oldProtocol && ntSmbs)
  {
    if oldProtocol {
      r, calls := ListOld(server);
    } else {
      r, calls := ListNew(server, if ntSmbs then BothDirectoryInfo else Standard);
    }
  }

  /** The switch of protocol changes nothing but short names, except on a server that ends with a status. */
  lemma SwitchKeepsListing(entries: seq<Entry>, ending: Ending, refusesNoMatch: bool)
    ensures (Refused(true, entries, ending, refusesNoMatch) <==> Refused(false, entries, ending, refusesNoMatch))
            <==> (entries == [] || !ending.NoMoreFilesStatus?)
    ensures Interpreted(Search, entries) == Interpreted(Standard, entries)
    ensures (forall i :: 0 <= i < |entries| ==> entries[i].shortName == entries[i].name)
            <==> Interpreted(Search, entries) == Interpreted(BothDirectoryInfo, entries)
  {
    if Interpreted(Search, entries) == Interpreted(BothDirectoryInfo, entries) {
      forall i | 0 <= i < |entries|
        ensures entries[i].shortName == entries[i].name
      {
        assert Interpreted(Search, entries)[i] == Interpreted(BothDirectoryInfo, entries)[i];
      }
    }
  }

  /** One file on a server that ends with a status: listed over the old protocol, lost over the new one. */
  lemma StatusEndingLosesListing()
    ensures var e := Entry("A", "A", 0x20, 1, 0, 1);
            Refused(false, [e], NoMoreFilesStatus, false) && !Refused(true, [e], NoMoreFilesStatus, false)
  {
  }
}
