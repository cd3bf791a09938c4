# Samba 4 client and authentication core, modelled and proved in Dafny

This project models the parts of Samba 4 in which an algorithm or a protocol, rather than a library call,
does the work, and proves what those parts promise. Servers, the network, LDAP, clocks, randomness and
cryptography appear as nondeterministic classes or as uninterpreted functions: a theorem about a run holds for
every way in which the other side may answer, refuse, or cut its answer short.

| files | what they model |
|---|---|
| `Wrappers`, `Bytes`, `Paths`, `CStrings`, `CleanName` | shared definitions, backslash paths, NUL-terminated strings, the in-place `..` elimination of smbclient |
| `ListQueue`, `RemoteTree`, `RecursiveList`, `RecursiveListSpec` | the packed string queue and the recursive listing that it drives |
| `LineEndings`, `LocalFiles`, `FileTransfer` | CR/LF translation, chunked reads and writes, get and put with resumption |
| `RemoteFs`, `DeleteTree` | recursive deletion through a listing callback |
| `DirectoryListing` | the two paging protocols behind one listing call |
| `BlockCopy` | the re-blocking copier of cifsdd |
| `ReplicationPull`, `JoinTrace`, `JoinOutcome`, `JoinOrder`, `JoinReplies`, `JoinEndings`, `DomainJoin`, `ServerObject`, `JoinDirectory` | becoming a domain controller: paged replication, the order of the whole run, the server object in the directory |
| `LogonInfo` | logon information to its NETLOGON form and back |
| `NtlmCheck`, `AuthContext` | the NTLM password decision, the challenge, and the dispatch to authentication methods |

Code that updates state in place is modelled by classes, arrays and loops; each such method is proved against
a specification function, and the specification functions carry the theorems.

`dafny verify dfyconfig.toml` checks the whole project.

## What the proofs show about the code

- The path loop (`client.c:84-88`) keeps the meaning of a path if and only if no prefix of the path climbs above
  the root. A path that does climb is cut to the text before its first backslash.
- The queue tests emptiness by looking at byte 0 of its buffer instead of at its start. What the test says is a
  function of the history: "empty" when nothing is queued or the entry last placed at offset 0 was blank. It is exact
  for every history of non-blank entries.
- The trans2 listing returns an error and delivers nothing when the server announces the end with
  `STATUS_NO_MORE_FILES`, which the old-style loop takes as the end. That is the only difference between the two,
  apart from short names.
- `smbcli_deltree` is said to return the number of files deleted. It counts directories as well, and of the nodes
  that were there it leaves out those that its wildcard unlinks took. The number is that of all nodes when no
  writable file lies below the top, and, if the server takes all the files that a wildcard allows, only then. A
  read-only file given as the top gives -1 although nothing was refused.
  The test of `failed` after the top directory is gone never fires.
- cifsdd with `count=0` still copies one block. The default count makes the 64-bit product wrap; `CopyFiles`
  says where the copy stops in that case too. `main` tests `ibs` twice and never `obs`, so `obs > 0` is assumed.
- `do_put` with translation and a buffer of one byte always fails, because `readfile` then reads nothing.
- A resumed get or put without translation that succeeds gives equal files if and only if what was there was a
  prefix of the source. A resumed put with translation, of no more than the file, leaves its encoding if and only if
  what was there was a prefix without LF.
- `encrypt_user_info` computes the LM response into the buffer of the NT response. A version 1 response is
  therefore accepted, where NTLMv1 is allowed, if and only if no LM response was to be sent, or both hashes give the
  same response. It also leaves `password_state` as it was, so the tag describes the result only when nothing was
  converted.
- When a version 2 answer in the LM field is what proves the password, the session keys are those of a longer NT
  response that came with it, although that one was not right.
- The bad password count never survives the conversion to SamInfo3, because it is assigned to itself. The groups
  outside the domain survive at level 3 only.
- A finished join ends in the ERROR state if and only if its fourth reply, the one to AddEntry, is not one without
  exactly one object that reports success everywhere; such a reply makes `composite_error` abort on its own assertion.
  Against a server that refuses nothing the run ends with NOT_IMPLEMENTED after thirteen replies plus one for each extra page.
- A translated put followed by a get is the identity if and only if no CR LF of the encoded text lies across a multiple
  of the buffer size, as long as the server fills every read.

## Model

| member | source | states |
|---|---|---|
| CleanName.ReduceDotDot | Samba/source/client/client.c:84-88 | the strstr/strrchr/memmove loop ends on every NUL-terminated array and leaves the text that a left-to-right walk over a stack of names gives |
| CleanName.Turn | Samba/source/client/client.c:85-87 | one turn strictly shortens the string and keeps the reduced path |
| CleanName.MoveTail | Samba/source/client/client.c:87 | the memmove leaves the string made of the part before the earlier backslash and the tail |
| CleanName.ReducedIsResolvedUnlessClimbing | Samba/source/client/client.c:84-88 | for every path, the result equals the path with `..` resolved (and held at the root) if and only if no prefix climbs above the root |
| CleanName.ClimbingLosesTheRest | Samba/source/client/client.c:84-88 | a concrete climbing path, whose reduction is empty although it resolves to a name |
| CleanName.DropPair | Samba/source/client/client.c:86-87 | removing a directory and the first `..` after it keeps the walk, for every path |
| CleanName.CutAtRoot | Samba/source/client/client.c:85 | with no backslash before the first `..` the path climbs, and what is left reduces to the same text |
| CleanName.NothingToReduce | Samba/source/client/client.c:84 | a string without the pattern is its own reduction, so the loop stops at a fixed point |
| CStrings.StrStr | Samba/source/client/client.c:84 | the first occurrence, or none exists |
| CStrings.StrRChr | Samba/source/client/client.c:86 | the last occurrence of the character, or it does not occur |
| CStrings.MemMove | Samba/source/client/client.c:426-428 | the block arrives as it was, overlapping or not, and nothing else changes |
| ListQueue.Queue.Init | Samba/source/client/client.c:396-408 | a fresh buffer of 1024 bytes standing for the empty FIFO |
| ListQueue.Queue.Reset | Samba/source/client/client.c:388-394 | no buffer, standing for the empty FIFO |
| ListQueue.Queue.Grow | Samba/source/client/client.c:440-457 | doubles until the new end fits, to less than twice that end, keeping every old byte |
| ListQueue.Queue.Store | Samba/source/client/client.c:436-466 | the live bytes become the old ones followed by the entry and its NUL; any growth stays below four times the live bytes |
| ListQueue.Queue.Add | Samba/source/client/client.c:436-466 | appends to the FIFO, and keeps start, size and the entry at offset 0 what the history makes them |
| ListQueue.Queue.Head | Samba/source/client/client.c:468-471 | the bytes from start up to a NUL are the oldest entry |
| ListQueue.Queue.Adjust | Samba/source/client/client.c:410-434 | emptying or sliding the buffer keeps the FIFO and re-establishes start <= size/2 |
| ListQueue.Queue.RemoveHead | Samba/source/client/client.c:473-482 | drops the oldest entry and slides the data when it starts past the middle, or does nothing on an empty queue |
| ListQueue.Queue.Empty | Samba/source/client/client.c:484-487 | says empty exactly when the FIFO is empty or the entry last placed at offset 0 is blank |
| ListQueue.Queue.HeadLabel | Samba/source/client/client.c:562-577 | gives the head without a trailing `\*`, and the buffer is afterwards as it was |
| ListQueue.Run | Samba/source/client/client.c:388-487 | over every sequence of additions and removals, in every state passed: contents and head are those of a plain FIFO; the emptiness test says what the history determines, and without blank entries is exact; start <= size/2, and the size is 1024 or less than four times the peak number of live bytes |
| ListQueue.NothingBlank | Samba/source/client/client.c:484-487 | a history without blank entries never has one at offset 0 |
| ListQueue.BlankEntryHides | Samba/source/client/client.c:484-487 | a concrete history of two additions, after which a queue of two entries is said to be empty |
| ListQueue.MiddleStays | Samba/source/client/client.c:410-434 | data that begins exactly in the middle is not moved |
| ListQueue.LayoutIsFifo | Samba/source/client/client.c:388-487 | the layout of a history holds the entries of the plain FIFO |
| ListQueue.Step | Samba/source/client/client.c:436-482 | one operation keeps the layout and the peak equal to those of the history |
| ListQueue.PackAppend | Samba/source/client/client.c:461-463 | packing one more entry appends its bytes and one NUL |
| ListQueue.HeadIn | Samba/source/client/client.c:468-477 | where the first string, its NUL and the rest lie inside any buffer that holds a packed FIFO |
| RemoteTree.QueueOrderIsLevelOrder | Samba/source/client/client.c:547-559 | a FIFO to which each visited directory appends its subdirectories visits every finite tree level by level |
| RemoteTree.QueueShrinks | Samba/source/client/client.c:547-559 | the nodes still in queued subtrees get fewer with every turn, so the loop ends |
| RemoteTree.DepthNeverDrops | Samba/source/client/client.c:547-559 | no directory is visited after a deeper one |
| RemoteTree.VisitedOnce | Samba/source/client/client.c:547-559 | no directory is visited twice |
| RemoteTree.VisitedIffReachable | Samba/source/client/client.c:547-559 | a directory is visited if and only if listable directories lead to it |
| RecursiveList.SubMaskNames | Samba/source/client/client.c:506-511 | whatever the pattern of a mask, the mask built for a subdirectory is the one that lists all of it |
| RecursiveList.PathOfMask | Samba/source/client/client.c:506-511 | the mask determines the directory and the pattern |
| RecursiveList.QueuedAreSubs | Samba/source/client/client.c:500-512 | the masks queued during one listing are those of the subdirectories, in order, `.` and `..` left out |
| RecursiveList.Lister.Helper | Samba/source/client/client.c:492-519 | calls back for an admitted entry and queues the mask of a subdirectory |
| RecursiveList.Lister.ListInto | Samba/source/client/client.c:558 | one listing logs its admitted entries in order and appends its subdirectories' masks to the FIFO |
| RecursiveList.Lister.VisitHead | Samba/source/client/client.c:556-559 | one turn lists the directory at the head and leaves the FIFO with the next ones |
| RecursiveList.Lister.Announce | Samba/source/client/client.c:560-578 | prints the directory that comes next, if one is queued and the callback displays |
| RecursiveList.Lister.Drain | Samba/source/client/client.c:547-579 | the loop on the byte-0 test ends, and its log is that of the breadth-first order |
| RecursiveList.Lister.DoList | Samba/source/client/client.c:525-590 | from any directory and with any pattern, a recursive listing logs the breadth-first order of everything below, a plain one the single directory; a recursive call inside another stops the program without a callback |
| RecursiveListSpec.WholeTreeVisited | Samba/source/client/client.c:547-579 | from any directory and pattern: sorted by depth, without repetition, exactly the directories reachable from there |
| RecursiveListSpec.LogCount | Samba/source/client/client.c:492-519 | in the log of distinct directories an entry's callback occurs once if it is admitted and present, otherwise never |
| RecursiveListSpec.CalledExactlyOnce | Samba/source/client/client.c:525-590 | for every start, pattern, path and entry, the callback runs exactly once if the path is reachable, the entry is in it and the options ask for it, otherwise not at all |
| RecursiveListSpec.NothingMissed | Samba/source/client/client.c:500-512 | every subdirectory of a visited directory is visited, and `.` and `..` never are |
| RecursiveListSpec.HeadersAre | Samba/source/client/client.c:560-578 | a listing that displays prints the name of every directory but the first, in the order of the visits, and another prints none |
| RecursiveListSpec.AdmittedIs | Samba/source/client/client.c:313-334 | directories when asked for; files that match the selection, are not older than the date given, and at archive levels 1 and 2 have the archive bit |
| LineEndings.ChunkedRoundTrip | Samba/source/client/client.c:99-150 | decoding any chunking of an encoded text gives the text with one CR more for each CR LF that a boundary splits; it is the text itself if and only if none is split |
| LineEndings.OneStrayPerSplit | Samba/source/client/client.c:109-121 | the extra length is the number of split pairs |
| LineEndings.FilledRoundTrip | Samba/source/client/client.c:734-746 | with every chunk but the last of the buffer's size, the text comes back if and only if no CR LF of its encoding lies across a multiple of that size |
| LineEndings.BoundaryIs | Samba/source/client/client.c:734-746 | the boundaries inside the data are then exactly the multiples of the buffer size |
| LineEndings.StraddlingAddsCR | Samba/source/client/client.c:109-121 | a concrete text of two bytes and a buffer of two bytes, which come back as three |
| LineEndings.EncodeAppend | Samba/source/client/client.c:136-147 | encoding distributes over concatenation, so chunks can be encoded one by one |
| LineEndings.EncodedHead | Samba/source/client/client.c:1084-1120 | a kept part followed by the encoding of what comes after as many bytes is the whole encoding if and only if it is a prefix without LF |
| LocalFiles.XFile.ReadFile | Samba/source/client/client.c:128-150 | a chunk fits its buffer and is the encoding of the bytes consumed; before the end of the file it fills the buffer, or all but one byte with translation; it is empty exactly at the end for every buffer of two bytes or more, and always for one byte with translation |
| LocalFiles.XFile.ReadTranslated | Samba/source/client/client.c:136-147 | the loop stops one byte short, so that a CR LF always fits |
| LocalFiles.LocalFile.WriteFile | Samba/source/client/client.c:99-122 | taking the whole chunk appends its decoding; a smaller return means that a write was short, and says exactly what has not been written |
| LocalFiles.LocalFile.TakeOne | Samba/source/client/client.c:110-119 | one turn writes the next byte, or the LF of a CR LF, and decodes that much |
| FileTransfer.SpliceTwice | Samba/source/libcli/clireadwrite.c:108-127 | two adjacent writes are one write, inside, across and beyond the end of the file |
| FileTransfer.SpliceIs | Samba/source/libcli/clireadwrite.c:108-127 | byte by byte, a write leaves what was written, elsewhere what was there, and zeros in a gap |
| FileTransfer.Read | Samba/source/libcli/clireadwrite.c:28-75 | a contiguous slice of the file at the offset; something of it unless a call failed or nothing is there, and all that is available unless a reply was short; each request is as large as the message size and the rest allow |
| FileTransfer.Write | Samba/source/libcli/clireadwrite.c:87-129 | the whole buffer spliced in at the offset, however few bytes each call takes, or -1 after a proper prefix of it; -1 only if a call failed; each request is as large as the message size and the rest allow |
| FileTransfer.SmbWrite | Samba/source/libcli/clireadwrite.c:134-166 | the returned number of bytes spliced in, all of them unless a call failed or took nothing; an empty buffer sets the length of the file; each request is as large as the message size and the rest allow |
| FileTransfer.Receive | Samba/source/client/client.c:734-746 | the chunks received are the remote bytes from the start on, each written through the translation, each but the last as long as the buffer if no reply was short |
| FileTransfer.DoGet | Samba/source/client/client.c:697-762 | success means that all remote bytes after the kept ones arrived, and comes whenever no call fails, however short the reads; without translation the files are then equal if and only if the kept part is a prefix |
| FileTransfer.Send | Samba/source/client/client.c:1125-1148 | success means that the encoding of the rest of the local file is spliced in at the start, and comes whenever no call fails; every chunk but the last fills the buffer, or all but one byte of it with translation |
| FileTransfer.SendChunk | Samba/source/client/client.c:1126-1147 | one turn extends what is sent by the encoding of the bytes read, unless a call fails |
| FileTransfer.DoPut | Samba/source/client/client.c:1075-1155 | the remote file is what was kept followed by the encoding of the rest; it equals the local file if and only if the kept part is a prefix, and with translation the encoded file if and only if the kept part is a prefix without LF (or, if longer than the file, its whole encoding); a one-byte buffer with translation always fails |
| FileTransfer.PutThenGet | Samba/source/client/client.c:668-787 | a file put and got back is itself; with translation, and no short replies, if and only if no CR LF of its encoding lies across a multiple of the buffer size, and otherwise with one CR more for each that does |
| RemoteFs.AncestorExists | Samba/source/libcli/clideltree.c:35-121 | in a file tree every ancestor of a node is a node |
| DeleteTree.DelTree | Samba/source/libcli/clideltree.c:83-121 | nodes outside the path never change; a result of zero or more means that nothing is at or below it, and is the number of nodes that were there less those that wildcard unlinks took: all of them when no writable file lay below, and with a server whose wildcard unlinks take all they may only then; an existing top gives -1 exactly when it is still there; when nothing is refused, -1 comes exactly for a read-only file |
| DeleteTree.CountMissesFile | Samba/source/libcli/clideltree.c:78-82 | a concrete tree of two nodes, both of which go, and a result below two |
| DeleteTree.SweptAll | Samba/source/libcli/clideltree.c:56-60 | when the entries are gone, a writable file deeper down has given the wildcard unlinks something to take |
| DeleteTree.EmptiedByParts | Samba/source/libcli/clideltree.c:56-60 | a wildcard unlink, a listing and its callbacks together empty a directory, or leave a failure that shows in it |
| DeleteTree.DeletedByParts | Samba/source/libcli/clideltree.c:54-66 | emptying and removing a directory together delete it, or note the failure exactly when it stays |
| DeleteTree.DelDirectory | Samba/source/libcli/clideltree.c:103-121 | -1 exactly when the top is still there or never was, which makes the final test of failed redundant |
| DeleteTree.DeleteState.DeleteFn | Samba/source/libcli/clideltree.c:35-76 | only the entry's subtree changes, failed is raised exactly when the entry stays, and an entry goes unless something was refused |
| DeleteTree.DeleteState.DeleteDir | Samba/source/libcli/clideltree.c:54-66 | the same of a directory, whose count stays in step with the removals |
| DeleteTree.DeleteState.DeleteFile | Samba/source/libcli/clideltree.c:67-74 | the same of a file |
| DeleteTree.DeleteState.EmptyDir | Samba/source/libcli/clideltree.c:56-60 | the directory itself stays; a new failure means that something is left in it; nothing is left unless something was refused |
| DeleteTree.DeleteState.Callbacks | Samba/source/libcli/clideltree.c:58-60 | the callbacks over one listing, which change the tree under it, keep all later entries intact |
| DeleteTree.EntryNames | Samba/source/libcli/clideltree.c:43-56 | the strings cut and pasted from mask and name are the names of the entry and of its contents |
| BlockCopy.Copier.CopyFiles | Samba/source/client/cifsdd.c:448-510 | the output is always a prefix of what was read and, on normal completion, all of it, with equal byte counts and block counts that bound them; at most max(ibs*count-1,0)+obs+ibs-1 bytes are read; each write offers the next obs bytes, or all that is left; full and partial blocks are quotient and remainder while every read, or write, is whole; with full reads and ibs = obs exactly min(ibs*max(count,1), length), and the exact stop under 64-bit wrap-around; without an interrupt, success means that the limit was reached or a read returned nothing, and an error that a read or write failed |
| BlockCopy.Copier.CopyLoop | Samba/source/client/cifsdd.c:448-505 | the loop ends on every finite input; an interrupt leaves a prefix |
| BlockCopy.Copier.Turn | Samba/source/client/cifsdd.c:479-504 | a turn keeps written + buffered = read and fewer than obs bytes buffered, and moves on in the input unless that has ended |
| BlockCopy.Copier.FillTurn | Samba/source/client/cifsdd.c:479-492 | after filling, fewer than obs bytes in the buffer, and so none, mean the end of the input; the block count ends it too |
| BlockCopy.Copier.Fill | Samba/source/client/cifsddio.c:367-407 | never more than obs-1+ibs bytes buffered, and obs of them or end of file on return |
| BlockCopy.Copier.ReadBlock | Samba/source/client/cifsddio.c:380-403 | one read extends the buffered bytes by the next input bytes and counts them |
| BlockCopy.Copier.CountRead | Samba/source/client/cifsddio.c:393-403 | full and partial block counts after a read |
| BlockCopy.Copier.WriteBlock | Samba/source/client/cifsddio.c:426-461 | a successful write takes at least one byte and is counted as full or partial |
| BlockCopy.Copier.WriteOut | Samba/source/client/cifsddio.c:424-469 | the writes are full blocks of obs bytes while there are any, or the one partial block that is left; total_size > 0 holds on every success, and fewer than obs bytes are left |
| BlockCopy.Copier.WriteFull | Samba/source/client/cifsddio.c:442-469 | every write of the loop offers obs bytes, which have been read |
| BlockCopy.Copier.WritePartial | Samba/source/client/cifsddio.c:424-439 | a partial block offers all that is left |
| BlockCopy.CountersAre | Samba/source/client/cifsddio.c:394-453 | with at most one partial block the counters are quotient and remainder |
| BlockCopy.Copier.Flush | Samba/source/client/cifsddio.c:413-494 | the rest moves to the front, and written + buffered = read |
| BlockCopy.Copier.FlushAll | Samba/source/client/cifsdd.c:464-474 | the flushes at end of file empty the buffer or fail |
| BlockCopy.AccountBlock | Samba/source/client/cifsddio.c:394-403 | one more block keeps bytes between fblocks*bs+pblocks and fblocks*bs+pblocks*(bs-1) |
| BlockCopy.AccountedBounds | Samba/source/client/cifsddio.c:394-403 | fblocks*bs <= bytes <= (fblocks+pblocks)*bs |
| BlockCopy.StopIsCount | Samba/source/client/cifsdd.c:489-491 | the stop is max(count, 1) blocks |
| BlockCopy.ExactStop | Samba/source/client/cifsdd.c:489-491 | whatever the number of turns, the place where the loop stops is the first multiple of ibs that reaches the limit, or the end |
| DirectoryListing.List | Samba/source/libcli/clilist.c:348-354 | delivers every matching entry once, in server order, with its own name, attributes, size, time and short name, and returns their number; on a connection that works it fails exactly in the stated cases; each request asks for 512 entries, or 500 over the old protocol |
| DirectoryListing.ListNew | Samba/source/libcli/clilist.c:101-202 | the trans2 loop refines the listing, and fails on an end announced by status |
| DirectoryListing.ListOld | Samba/source/libcli/clilist.c:259-342 | the old-style loop refines the same listing, and takes that status as the end |
| DirectoryListing.SearchState.Callback | Samba/source/libcli/clilist.c:76-99 | appends one entry, keeps dirlist_len = total_received and the resume information |
| DirectoryListing.SearchState.Receive | Samba/source/libcli/clilist.c:76-99 | a page extends the entries held by exactly that page |
| DirectoryListing.SwitchKeepsListing | Samba/source/libcli/clilist.c:348-354 | the protocols agree on failure exactly when the server does not end by status or nothing matches, and on entries exactly when short names equal names |
| DirectoryListing.StatusEndingLosesListing | Samba/source/libcli/clilist.c:174-182 | a concrete listing that the old protocol delivers and the new one loses |
| ReplicationPull.Pull | Samba/source/libnet/libnet_become_dc.c:1545-1725 | against a source with a finite ordered log the loop ends; the linked list is exactly the log, or a prefix after a refusal; the requests that the source has seen since the start each carry the watermark and invocation id of the container it sent before, at one level |
| ReplicationPull.PullPage | Samba/source/libnet/libnet_become_dc.c:1677-1725 | one request and reply extend the list by the next changes of the log, and what the source has seen by that request and container |
| ReplicationPull.Partition.Recv | Samba/source/libnet/libnet_become_dc.c:1604-1673 | an understood reply replaces the watermark and ids and appends its page, with last_object the true tail; any other changes nothing |
| ReplicationPull.Partition.AppendPage | Samba/source/libnet/libnet_become_dc.c:1658-1665 | the heap chain from first to last is the old one followed by the page |
| ReplicationPull.Partition.Link | Samba/source/libnet/libnet_become_dc.c:1660-1663 | setting one next pointer joins the two chains |
| ReplicationPull.Partition.Tail | Samba/source/libnet/libnet_become_dc.c:1664-1665 | the walk ends at the last item of the page |
| ReplicationPull.ObjectsAppend | Samba/source/libnet/libnet_become_dc.c:1658-1665 | pages that continue the log, appended, are the log so far |
| JoinTrace.DomainComesLast | Samba/source/libnet/libnet_become_dc.c:1748-1796 | in every orderly run the domain partition is requested only after the last pages of schema and config, with the server-trust and delegation flags set, and nothing else is requested from then on |
| JoinTrace.OneRequestLevel | Samba/source/libnet/libnet_become_dc.c:1545-1602 | any two GetNCChanges requests of a run are at the same level |
| JoinTrace.RequestsResume | Samba/source/libnet/libnet_become_dc.c:1560-1590 | in an orderly trace each request starts from nothing or from the latest page recorded for its partition |
| JoinTrace.FinishedStays | Samba/source/libnet/libnet_become_dc.c:1698-1725 | a partition whose last page has come is never asked for again |
| JoinTrace.RefsNameTheNewDsa | Samba/source/libnet/libnet_become_dc.c:1834-1867 | in an orderly trace UpdateRefs carries the GUID recorded for AddEntry, and no change request follows it |
| JoinTrace.NothingAfterFailure | Samba/source/libcli/composite/composite.c:73-83 | an error is the last event of its run |
| JoinOutcome.AddedObject | Samba/source/libnet/libnet_become_dc.c:1432-1484 | a GUID comes out exactly of a reply with one object, and is that object's |
| JoinOrder.EveryRunIsOrderly | Samba/source/libnet/libnet_become_dc.c:841-2050 | for every sequence of replies the trace is orderly, and while the run goes on its last event is the request that the replies determine |
| JoinOrder.StepKeepsInv | Samba/source/libnet/libnet_become_dc.c:841-2050 | every reply, of whatever content, keeps the order, the watermarks and what is known at each point |
| JoinOrder.StepRefused | Samba/source/libcli/composite/composite.c:73-83 | after a failed call or operation nothing is recorded but the failure |
| JoinReplies.WillingRun | Samba/source/libnet/libnet_become_dc.c:1421-2050 | against a server that refuses nothing, a run is at the step its number of replies determines, and after thirteen replies plus the extra pages it has ended with NOT_IMPLEMENTED |
| JoinReplies.NextRank | Samba/source/libnet/libnet_become_dc.c:1421-2050 | whatever the reply, a run that goes on moves on by exactly one step, or stays at a partition with more pages |
| JoinReplies.RepliesPlaced | Samba/source/libnet/libnet_become_dc.c:1421-1529 | the fourth reply is the one to AddEntry and the sixth the one to the second bind, and the run keeps the GUID and the level in them |
| JoinReplies.RefsCarryTheReply | Samba/source/libnet/libnet_become_dc.c:1834-1935 | every UpdateRefs of every run carries the GUID in the fourth reply |
| JoinReplies.RequestsCarryReplies | Samba/source/libnet/libnet_become_dc.c:1545-1602 | every change request of every run carries the watermark and invocation id of the latest page for its partition among the replies by then; it is at level 8 if and only if the sixth reply names version 8 in its 24-byte or 28-byte form, and at level 5 otherwise |
| JoinReplies.AbortsExactly | Samba/source/libnet/libnet_become_dc.c:1432-1484 | a run aborts if and only if its first three replies let it reach AddEntry and the fourth carries no single object and yet reports success everywhere |
| JoinReplies.AbortingRun | Samba/source/libcli/composite/composite.c:108-115 | a concrete run of four replies that aborts |
| JoinReplies.AddEntryNeedsLdap | Samba/source/libnet/libnet_become_dc.c:841-888 | AddEntry is sent only when all fourteen LDAP steps have worked |
| JoinReplies.EndsAtStep | Samba/source/libnet/libnet_become_dc.c:841-888 | the first LDAP step that does not work ends the run with its status |
| JoinEndings.PullsStart | Samba/source/libnet/libnet_become_dc.c:841-1529 | the first request for changes is sent if and only if the first seven replies are these; the third connection needs no binding |
| JoinEndings.RefusalEnds | Samba/source/libcli/composite/composite.c:73-83 | a failed call, or a failed operation, ends the run with its own status |
| JoinEndings.AddEntryEnds | Samba/source/libnet/libnet_become_dc.c:1432-1484 | a reply to AddEntry without exactly one object ends the run with the status it carries, or INVALID_NETWORK_RESPONSE where it carries none |
| JoinEndings.PageTaken | Samba/source/libnet/libnet_become_dc.c:1604-1725 | a page at levels 1, 2, 6 or MSZIP-compressed 7 is taken in, and more are asked for exactly when its temporary watermark is above the final one; any other reply ends the run and leaves what is held |
| JoinEndings.DomainStarts | Samba/source/libnet/libnet_become_dc.c:1938-2050 | what the second LDAP connection must achieve for the domain pull to begin, and the status with which the run ends otherwise |
| JoinEndings.FlagsAre | Samba/source/libnet/libnet_become_dc.c:1938-1978 | the account is modified only if its flags are wrong, and they change in no other way |
| JoinEndings.ModifiedFirst | Samba/source/libnet/libnet_become_dc.c:1938-2050 | before a request for the domain partition the account has been modified if and only if its flags were wrong at the start |
| JoinReplies.ListsAreTheLogs | Samba/source/libnet/libnet_become_dc.c:1545-1867 | if each page follows, in the log of its partition's source, the watermark of the request it answers, then the three lists are exactly the three logs whenever UpdateRefs is sent, and ever after |
| JoinReplies.PageExtends | Samba/source/libnet/libnet_become_dc.c:1604-1673 | a page served after the watermark extends the prefix of the log held, to all of it exactly with the last page |
| DomainJoin.Run | Samba/source/libnet/libnet_become_dc.c:2052-2092 | for every sequence of replies, where the run stands, what it keeps and every event of its trace are what the replies determine; the trace is orderly, and the run is never done |
| DomainJoin.RunAgainst | Samba/source/libnet/libnet_become_dc.c:2052-2092 | with pages from three replication sources, the three linked lists on the heap are exactly the three logs once references are updated |
| JoinDirectory.RunWithDirectory | Samba/source/libnet/libnet_become_dc.c:841-888 | with the last four LDAP steps run against a directory: AddEntry is sent only when an object there refers to the computer; a server object of another computer means that nothing is written, AddEntry is never sent and, when nothing is refused, the run ends with OBJECT_NAME_COLLISION; a step that the directory refuses ends it with the status made of its LDAP code; a run that does not get that far leaves the directory alone |
| JoinDirectory.Connect | Samba/source/libnet/libnet_become_dc.c:875-885 | the four steps give the statuses with which the run goes on |
| DomainJoin.Absorb | Samba/source/libnet/libnet_become_dc.c:1604-1673 | a reply appends its page to the list and replaces watermark and invocation id if it is understood, and changes nothing otherwise |
| DomainJoin.Partitions.AbsorbInto | Samba/source/libnet/libnet_become_dc.c:1698-1832 | a page goes to one of three lists that share nothing, and leaves the other two as they are |
| DomainJoin.Join.TakePage | Samba/source/libnet/libnet_become_dc.c:1698-1832 | a page changes what is kept of its partition, and nothing else of the run |
| DomainJoin.Join.Deliver | Samba/source/libnet/libnet_become_dc.c:1421-1935 | every reply takes the run, with everything it keeps and records, to the stage that the reply determines |
| DomainJoin.Join.RecvCldap | Samba/source/libnet/libnet_become_dc.c:841-888 | the fourteen LDAP steps are tried in order, the first failing one ends the run with its status, else the first connection is opened |
| DomainJoin.Join.SendConnect | Samba/source/libnet/libnet_become_dc.c:890-912 | a binding that does not parse ends the run with its status; the third connection reuses the second's |
| DomainJoin.Join.RecvConnect | Samba/source/libnet/libnet_become_dc.c:919-929 | a connection is bound, the third starts the schema pull |
| DomainJoin.Join.RecvBind | Samba/source/libnet/libnet_become_dc.c:997-1044 | the first bind leads to AddEntry; the second keeps the level that its reply offers and opens the third connection |
| DomainJoin.Join.RecvAddEntry | Samba/source/libnet/libnet_become_dc.c:1421-1491 | the GUID in the reply is kept and recorded, or the run ends with the reply's status |
| DomainJoin.Join.SendChanges | Samba/source/libnet/libnet_become_dc.c:1677-1796 | asks for a partition at the kept level, watermark and invocation id |
| DomainJoin.Join.RecvChanges | Samba/source/libnet/libnet_become_dc.c:1698-1832 | the page is taken into its list, and the run goes to the stage that the reply determines |
| DomainJoin.Join.GoOn | Samba/source/libnet/libnet_become_dc.c:1698-1832 | more pages of the same partition, else the next partition, the second LDAP connection, or the references; an error of the page ends the run |
| DomainJoin.Join.ModifyComputer | Samba/source/libnet/libnet_become_dc.c:1938-1978 | the account has both flags afterwards if the modification works, and is unchanged otherwise |
| DomainJoin.Join.ConnectLdap2 | Samba/source/libnet/libnet_become_dc.c:2036-2050 | which LDAP steps are tried, what they do to the flags, and that the domain pull starts only after all have worked; flags that are right already are not written |
| DomainJoin.Join.SendRefs | Samba/source/libnet/libnet_become_dc.c:1834-1867 | sends the kept GUID |
| DomainJoin.Join.RecvRefs | Samba/source/libnet/libnet_become_dc.c:1871-1935 | schema, config, domain in this order, then NOT_IMPLEMENTED |
| DomainJoin.Join.Fail | Samba/source/libcli/composite/composite.c:108-115 | a bad status puts the run into ERROR, a good one aborts |
| ServerObject.Phase.Run | Samba/source/libnet/libnet_become_dc.c:875-885 | success means that an object at server_dn_str refers to the computer, and that is the only change; a new object is a server with these flags; a collision writes nothing; at most one object is ever added; the result is decided when nothing is refused |
| ServerObject.Phase.Lookup | Samba/source/libnet/libnet_become_dc.c:636-689 | a collision is reported exactly when the standard place refers to another computer |
| ServerObject.Phase.LookupBackLink | Samba/source/libnet/libnet_become_dc.c:691-734 | finds an object that refers to the computer, or none exists |
| ServerObject.Phase.AddObject | Samba/source/libnet/libnet_become_dc.c:736-783 | adds the object at the free standard place, or does nothing when one is known |
| ServerObject.Phase.SetReference | Samba/source/libnet/libnet_become_dc.c:785-833 | add, then replace, leaves exactly that reference |
| ServerObject.RunTwice | Samba/source/libnet/libnet_become_dc.c:875-885 | after a success a second run leaves the directory unchanged, whatever is refused, and never collides |
| ServerObject.ReferenceThere | Samba/source/libnet/libnet_become_dc.c:785-833 | setting the reference changes nothing if and only if it is there |
| LogonInfo.ConvertToBase | Samba/source/auth/auth_sam_reply.c:29-106 | the fields of the logon information, keys of the wrong size as zeros, the bad password count lost |
| LogonInfo.CollectRids | Samba/source/auth/auth_sam_reply.c:59-82 | the loop fills the array with the RIDs of the in-domain groups, in order |
| LogonInfo.BaseIs | Samba/source/auth/auth_sam_reply.c:29-101 | each field of the converted information: domain and RID make up the account SID, the RIDs of the in-domain groups in order with the fixed attributes, the session keys where they fit and zeros elsewhere |
| LogonInfo.ConvertToSamInfo3 | Samba/source/auth/auth_sam_reply.c:108-150 | the SID array holds the other groups in order, and NETLOGON_EXTRA_SIDS is set if and only if there are any |
| LogonInfo.CollectSids | Samba/source/auth/auth_sam_reply.c:128-140 | the loop fills the array with the other groups, in order |
| LogonInfo.MakeServerInfo | Samba/source/auth/auth_util.c:235-366 | exactly which levels and missing validations are errors, and the logon information otherwise |
| LogonInfo.RebuildGroups | Samba/source/auth/auth_util.c:283-320 | the SIDs rebuilt from the RIDs, and behind them the extra SIDs that are taken |
| LogonInfo.GroupsRoundTrip | Samba/source/auth/auth_sam_reply.c:66-80 | the groups come back as the stable partition if and only if every in-domain group has one relative id, and as the same multiset under the same condition |
| LogonInfo.GroupsWithoutExtras | Samba/source/auth/auth_util.c:283-320 | at levels other than 3 the in-domain groups alone come back, so that the groups survive if and only if all are direct members of the domain |
| LogonInfo.ValidationRoundTrip | Samba/source/auth/auth_util.c:268-365 | a validation taken in and given out again keeps its ids, groups and counts, except the bad password count; extra SIDs only at level 3 |
| LogonInfo.FieldsRoundTrip | Samba/source/auth/auth_sam_reply.c:36-101 | at every level: the account SID always, the primary group if and only if directly in the domain, each session key if and only if it is empty or has 16 (8) bytes not all zero, the bad password count only when zero |
| LogonInfo.KeyRoundTrip | Samba/source/auth/auth_sam_reply.c:91-101 | a session key survives if and only if it is empty or has the field's size and is not all zero; otherwise none comes back |
| LogonInfo.SecondRoundTrip | Samba/source/auth/auth_util.c:268-365 | a second round trip is the identity on everything, whatever the first started from |
| LogonInfo.InsideAreIn | Samba/source/libcli/security/dom_sid.c:240-260 | the two filters split the groups: membership and multiset |
| LogonInfo.InDomainIs | Samba/source/libcli/security/dom_sid.c:240-260 | in the domain are the SIDs that extend it, itself included, which is not a direct member |
| LogonInfo.Rebuilt | Samba/source/libcli/security/dom_sid.c:240-260 | a SID is rebuilt from its last sub-authority if and only if it is a direct member of the domain |
| NtlmCheck.DecisionIs | Samba/source/auth/ntlm_check.c:221-598 | the whole decision as one condition on the fields: accepted if and only if one of the admitted proofs is present, and when a reject, of a response or of a password in clear, says NOT_FOUND rather than WRONG_PASSWORD |
| NtlmCheck.TryV2Is | Samba/source/auth/ntlm_check.c:343-391 | the three attempts succeed if and only if the response opens with the keyed digest of its own rest for one spelling of the domain |
| NtlmCheck.LanmanOnlyAdds | Samba/source/auth/ntlm_check.c:283-598 | allowing LANMAN turns no accept into a reject |
| NtlmCheck.NoNtHash | Samba/source/auth/ntlm_check.c:221-598 | an accept without a stored NT hash needs LANMAN, a stored LM hash and a name without realm |
| NtlmCheck.OnlyV2Left | Samba/source/auth/ntlm_check.c:283-598 | with both old schemes off, only version 2 responses are accepted |
| NtlmCheck.KeySizes | Samba/source/auth/ntlm_check.c:283-598 | key lengths 0 or 16 and 0 or 8 on every path; on the version 2 paths the LM key is the head of a full user key; no keys on a reject |
| NtlmCheck.KeysAre | Samba/source/auth/ntlm_check.c:74-590 | which session keys an accepted logon gets: the hash's for version 1, with the half LM hash only where LANMAN is allowed; for version 2 those of the first spelling that is right, taken from the longer NT response when a version 2 answer in the LM field counted; the padded half LM hash or nothing for the LM answers; none on a reject |
| NtlmCheck.ViaIs | Samba/source/auth/ntlm_check.c:283-590 | which of several proofs counts |
| NtlmCheck.V1Accepted | Samba/source/auth/auth_util.c:159-175 | when a version 1 response from the stored hash is accepted: with NTLMv1 allowed, if and only if no LM response is sent with it or the two responses coincide; otherwise if and only if the LM field proves the password by LM or version 2 |
| NtlmCheck.RightHashesRejected | Samba/source/auth/auth_util.c:165-170 | a concrete user with both hashes right whom a server that takes both schemes turns away |
| NtlmCheck.V2Accepted | Samba/source/libcli/auth/smbencrypt.c:397-442 | a version 2 response from the stored hash is always accepted, as version 2 |
| NtlmCheck.KeysAgree | Samba/source/libcli/auth/smbencrypt.c:397-442 | the server's session key is the one that the client derives from its own response, unless the response is right for the domain as given too, with another keyed hash |
| NtlmCheck.LmV2Accepted | Samba/source/libcli/auth/smbencrypt.c:371-442 | the response sent in the LM field is accepted alone by a server that sees no NT response |
| NtlmCheck.PlainAccepted | Samba/source/auth/auth_util.c:102-230 | the same as for hashes, from the plain password through both conversions to the decision |
| NtlmCheck.TagIsStale | Samba/source/auth/auth_util.c:102-230 | the result's tag fits its content if and only if nothing was converted; account and domain stay, and the mapped flag is set by the target state |
| AuthContext.Context.SetChallenge | Samba/source/auth/auth.c:31-40 | the challenge and its origin are replaced |
| AuthContext.Context.GetChallenge | Samba/source/auth/auth.c:54-104 | an existing challenge is returned unchanged; else the first method with something to say decides between its challenge and an error, else random bytes |
| AuthContext.Context.Send | Samba/source/auth/auth.c:221-301 | one callback at once, or one timed event for the first method that does not answer NOT_IMPLEMENTED; never both |
| AuthContext.Context.Fire | Samba/source/auth/auth.c:188-194 | the event of a request makes its one callback, with its method |
| AuthContext.Context.Drain | Samba/source/auth/auth.c:188-301 | when no event waits, every request ever sent has had exactly one callback, the one that was due |
| AuthContext.Run | Samba/source/auth/auth.c:31-301 | over any run of calls and events: each get returns the challenge of its source, which is the last set or else the first call that could get one, or the reason why there is none; in the end every check has had exactly one callback, and it is the right one in terms of what the methods answered; nobody is told Ok but by the verdict of a method |
| AuthContext.HeldFrom | Samba/source/auth/auth.c:31-104 | there is a challenge if and only if some call gave one; it is that of the last set, or, when there is none, what the methods offered in the first call that could get one |
| AuthContext.AcquiredIs | Samba/source/auth/auth.c:66-99 | the challenge is the one of the first method that does not answer NOT_IMPLEMENTED, or random when all do; that method's failure, or a size other than 8, means that there is none |
| AuthContext.DueIsRight | Samba/source/auth/auth.c:221-301 | the callback of each check: the failed mapping, the missing challenge, NO_SUCH_USER when all methods answer NOT_IMPLEMENTED, and otherwise the status or the verdict of the first that does not, with that method |
| AuthContext.OkHasHandler | Samba/source/auth/auth.c:188-301 | a callback with Ok comes from a method whose verdict that is |
| AuthContext.GetsRight | Samba/source/auth/auth.c:54-104 | a get returns the challenge of its source, or an error that says what the first method to answer did wrong |
| AuthContext.GetsAgree | Samba/source/auth/auth.c:54-104 | two gets without a set between them return the same 8 bytes, and a get after a set returns the bytes set |
| AuthContext.HeldSteady | Samba/source/auth/auth.c:31-104 | once there is a challenge, no get and no check changes it |
| AuthContext.Turn | Samba/source/auth/auth.c:31-301 | one call leaves the challenge, the waiting requests and the callbacks due that the calls so far determine, and makes the callback that is then due at once: of a check that goes to no method, or of the request that an event fires |
| AuthContext.FirstOffer | Samba/source/auth/auth.c:66-88 | the first method, in list order, that does not answer NOT_IMPLEMENTED |
| AuthContext.FirstWilling | Samba/source/auth/auth.c:272-296 | the same for password checks |
| AuthContext.Fired | Samba/source/auth/auth.c:188-194 | a fired event keeps each request at one event or one callback |

## Left out

- Memory exhaustion: every allocation succeeds, including the growth of the listing queue.
- `all_string_sub` and `trim_string` in `dos_clean_name`: only the `..` loop between them is modelled.
- ListQueue.Queue.Add: requires an initialised queue; on a queue that was only reset the doubling loop of the source would start from size 0 and not end.
- RecursiveList.Lister.VisitHead: takes the head of the queue by value, as the comment in the source asks; the source
  passes a pointer into the buffer, which growth during the listing would invalidate.
- RecursiveList.Lister.DoList: the callback is a log entry, so a callback that itself starts another listing is
  not modelled; the mask begins with a backslash, and how a server matches a name against a pattern is left open.
- RecursiveListSpec.CalledExactlyOnce: names in one directory differ, and contain no backslash and no NUL.
- DeleteTree.DelTree: the path holds no wildcard and no empty, `.` or `..` component after the first; a status is either success or an error, so
  NT warnings do not occur; a listing shows nodes that exist, each once.
- FileTransfer.Read: the negotiated message size is larger than the header it must leave room for, here and in the writes.
- FileTransfer.Write: the server takes at least one byte of every WRITE_ANDX, since the loop would not end otherwise.
- FileTransfer.DoGet: starts with both files open, so name handling, standard output, archive bits and timing are not in it; the remote file does not change meanwhile.
- FileTransfer.DoPut: starts with both files open and does not cover reading from standard input.
- BlockCopy.Copier.CopyFiles: opening and seeking the files, SIGUSR1 and the printed statistics are not modelled; block sizes are positive and twice the larger one fits 64 bits.
- DirectoryListing.ListNew: decoding of the wire format is not modelled; an entry carries the fields that the callbacks read, and both protocols are given the same names.
- ReplicationPull.Pull: pages hold at least one object, because the code dereferences the first one; the up-to-dateness vector, the byte limits and the replica flags of a request are not modelled, nor is the compression of replies beyond which forms are understood.
- DomainJoin.Run: the LDAP steps of the first connection appear through their status, except reading the account flags and, in
  `JoinDirectory`, the four that concern the server object; the content of the AddEntry request is not modelled.
- ServerObject.Phase.Run: malformed search results (not one entry, no distinguishedName) are part of the refusals; distinguished names are compared as equal or not.
- LogonInfo.ConvertToBase: requires a last sub-authority for the account, the primary group and in-domain groups, which the code reads without a test.
- NtlmCheck.KeysAre: hash functions are uninterpreted with fixed output lengths, and a stored LM hash has 16 bytes.
- NtlmCheck.LmV2Accepted: the random part of the response has 8 bytes, as the code makes it.
- NtlmCheck.V2Accepted: the client blob is longer than 8 bytes, as its fixed header makes it, and the keyed hash of the user can be computed.
- AuthContext.Context.Send: `map_user_info` is a status; a callback that frees the context is not modelled.
- Mounting tools, the KDC, the LDAP and CLDAP servers, PAM and winbind back ends, the Python bindings: wrappers over libraries whose code is elsewhere.
