/** Chunked reads and writes of a remote file, and the get and put commands of smbclient built on them. */
module FileTransfer {
  import opened Wrappers
  import opened Bytes
  import opened LineEndings
  import opened LocalFiles

  const MIN_SMB_SIZE: nat := 35

  /** The file with d written at the given offset; a gap before it reads as zeros. */
  function Splice(f: seq<byte>, offset: nat, d: seq<byte>): seq<byte> {
    if d == [] then f
    else
      (if offset <= |f| then f[..offset] else f + Zeros(offset - |f|)) + d
      + (if offset + |d| <= |f| then f[offset + |d|..] else [])
  }

  /** Byte by byte: what was written, and elsewhere what was there, or zero. */
  predicate IsSplice(r: seq<byte>, f: seq<byte>, offset: nat, d: seq<byte>) {
    && |r| == Max(|f|, offset + |d|)
    && forall i :: 0 <= i < |r| ==> r[i] == if offset <= i < offset + |d| then d[i - offset] else if i < |f| then f[i] else 0
  }

  lemma SpliceIs(f: seq<byte>, offset: nat, d: seq<byte>)
    requires d != []
    ensures IsSplice(Splice(f, offset, d), f, offset, d)
  {
  }

  lemma SplicesCompose(f: seq<byte>, once: seq<byte>, twice: seq<byte>, whole: seq<byte>, offset: nat, a: seq<byte>, b: seq<byte>)
    requires IsSplice(once, f, offset, a) && IsSplice(twice, once, offset + |a|, b) && IsSplice(whole, f, offset, a + b)
    ensures twice == whole
  {
    assert |twice| == |whole|;
    forall i | 0 <= i < |whole|
      ensures twice[i] == whole[i]
    {
      if i < |once| {
        assert once[i] == if offset <= i < offset + |a| then a[i - offset] else if i < |f| then f[i] else 0;
      }
    }
  }

  /** Two adjacent writes are one write. */
  lemma SpliceTwice(f: seq<byte>, offset: nat, a: seq<byte>, b: seq<byte>)
    ensures Splice(Splice(f, offset, a), offset + |a|, b) == Splice(f, offset, a + b)
  {
    if a == [] {
      assert a + b == b;
    } else if b == [] {
      assert a + b == a;
    } else {
      var once, whole := Splice(f, offset, a), Splice(f, offset, a + b);
      SpliceIs(f, offset, a);
      SpliceIs(once, offset + |a|, b);
      SpliceIs(f, offset, a + b);
      SplicesCompose(f, once, Splice(once, offset + |a|, b), whole, offset, a, b);
    }
  }

  /** A file that holds the first total bytes of a buffer, before and after n more of them are written. */
  lemma SpliceMore(base: seq<byte>, f: seq<byte>, g: seq<byte>, offset: nat, buf: seq<byte>, total: nat, d: seq<byte>, n: nat)
    requires n <= |d| && total + |d| <= |buf| && d == buf[total..total + |d|]
    requires f == Splice(base, offset, buf[..total]) && g == Splice(f, offset + total, d[..n])
    ensures g == Splice(base, offset, buf[..total + n])
  {
    SpliceTwice(base, offset, buf[..total], d[..n]);
    assert buf[..total + n] == buf[..total] + d[..n];
  }

  lemma SpliceAtEnd(f: seq<byte>, d: seq<byte>)
    ensures Splice(f, |f|, d) == f + d
  {
  }

  function Resized(f: seq<byte>, size: nat): seq<byte> {
    if size <= |f| then f[..size] else f + Zeros(size - |f|)
  }

  /** What was read is the part of the file that begins at the offset. */
  predicate SliceAt(data: seq<byte>, offset: nat, got: seq<byte>) {
    got == [] || (offset + |got| <= |data| && got == data[offset..offset + |got|])
  }

  lemma SliceMore(data: seq<byte>, offset: nat, had: seq<byte>, more: seq<byte>)
    requires SliceAt(data, offset, had) && SliceAt(data, offset + |had|, more)
    ensures SliceAt(data, offset, had + more)
  {
    if had != [] && more != [] {
      var k := offset + |had|;
      assert data[offset..k + |more|] == data[offset..k] + data[k..k + |more|];
    } else if more == [] {
      assert had + more == had;
    } else {
      assert had + more == more;
    }
  }

  /** A request to read or write: where it begins, and how many bytes it asks for or offers. */
  datatype Asked = Asked(at: nat, size: nat)

  /** From the given one on, each request is as large as the limit and what is left before the end allow. */
  ghost predicate Largest(asked: seq<Asked>, from: nat, end: nat, limit: nat) {
    forall i :: from <= i < |asked| ==> asked[i].at <= end && asked[i].size == Min(limit, end - asked[i].at)
  }

  lemma LargestMore(asked: seq<Asked>, from: nat, end: nat, limit: nat, at: nat, size: nat)
    requires Largest(asked, from, end, limit) && at <= end && size == Min(limit, end - at)
    ensures Largest(asked + [Asked(at, size)], from, end, limit)
  {
  }

  class RemoteFile {
    var data: seq<byte>
    ghost var failed: bool      // some call was refused, or moved nothing where it could have moved something
    ghost var short: bool       // some read returned less than it could have
    ghost var asked: seq<Asked> // every request so far

    constructor (data: seq<byte>)
      ensures this.data == data && !failed && !short && asked == []
    {
      this.data, failed, short, asked := data, false, false, [];
    }

    /** How many of count bytes at the offset the file holds. */
    ghost function Available(offset: nat, count: nat): nat
      reads this
    {
      if offset >= |data| then 0 else Min(count, |data| - offset)
    }

    /** READ_ANDX: some of the bytes at the offset, at most count of them. */
    method ReadX(offset: nat, b: array<byte>, at: nat, count: nat) returns (ok: bool, n: nat)
      requires at + count <= b.Length
      modifies this`failed, this`short, this`asked, b
      ensures forall i :: 0 <= i < at ==> b[i] == old(b[i])
      ensures n <= count && SliceAt(data, offset, b[at..at + n]) && (!ok ==> n == 0)
      ensures failed == (old(failed) || !ok || (n == 0 && Available(offset, count) > 0))
      ensures short == (old(short) || n < Available(offset, count))
      ensures asked == old(asked) + [Asked(offset, count)]
    {
      asked := asked + [Asked(offset, count)];
      ok := *;
      n := 0;
      if ok && offset < |data| {
        n :| 0 <= n <= count && offset + n <= |data|;
        Put(b, at, data[offset..offset + n]);
      }
      failed := failed || !ok || (n == 0 && Available(offset, count) > 0);
      short := short || n < Available(offset, count);
    }

    /** WRITE_ANDX: takes at least one of the bytes offered. */
    method WriteX(offset: nat, d: seq<byte>) returns (ok: bool, n: nat)
      requires d != []
      modifies this`data, this`failed, this`asked
      ensures ok ==> 0 < n <= |d| && data == Splice(old(data), offset, d[..n])
      ensures !ok ==> data == old(data)
      ensures failed == (old(failed) || !ok)
      ensures asked == old(asked) + [Asked(offset, |d|)]
    {
      asked := asked + [Asked(offset, |d|)];
      ok := *;
      n := 0;
      if ok {
        n :| 0 < n <= |d|;
        data := Splice(data, offset, d[..n]);
      }
      failed := failed || !ok;
    }

    /** SMBwrite: takes any number of the bytes offered; an offer of none sets the length of the file. */
    method WriteCore(offset: nat, d: seq<byte>) returns (ok: bool, n: nat)
      modifies this`data, this`failed, this`asked
      ensures ok && d != [] ==> n <= |d| && data == Splice(old(data), offset, d[..n])
      ensures ok && d == [] ==> n == 0 && data == Resized(old(data), offset)
      ensures !ok ==> data == old(data)
      ensures failed == (old(failed) || !ok || (n == 0 && d != []))
      ensures asked == old(asked) + [Asked(offset, |d|)]
    {
      asked := asked + [Asked(offset, |d|)];
      ok := *;
      n := 0;
      if ok && d == [] {
        data := Resized(data, offset);
      } else if ok {
        n :| 0 <= n <= |d|;
        data := Splice(data, offset, d[..n]);
      }
      failed := failed || !ok || (n == 0 && d != []);
    }
  }

  /** One READ_ANDX of the loop, for count bytes behind the total that have arrived. */
  method ReadOnce(remote: RemoteFile, b: array<byte>, offset: nat, total: nat, count: nat) returns (ok: bool, n: nat)
    requires total + count <= b.Length && SliceAt(remote.data, offset, b[..total])
    modifies remote`failed, remote`short, remote`asked, b
    ensures n <= count && SliceAt(remote.data, offset, b[..total + n]) && (!ok ==> n == 0)
    ensures remote.failed == (old(remote.failed) || !ok || (n == 0 && remote.Available(offset + total, count) > 0))
    ensures remote.short == (old(remote.short) || n < remote.Available(offset + total, count))
    ensures remote.asked == old(remote.asked) + [Asked(offset + total, count)]
  {
    ghost var had := b[..total];
    ok, n := remote.ReadX(offset + total, b, total, count);
    assert b[..total] == had;
    SliceMore(remote.data, offset, had, b[total..total + n]);
    assert b[..total + n] == had + b[total..total + n];
  }

  /** The loop of smbcli_read: how much has arrived when it ends, and whether no call was refused. */
  method ReadLoop(remote: RemoteFile, maxXmit: nat, b: array<byte>, offset: nat, size: nat) returns (ok: bool, total: nat)
    requires 0 < size <= b.Length && maxXmit > MIN_SMB_SIZE + 32
    modifies remote`failed, remote`short, remote`asked, b
    ensures total <= size && SliceAt(remote.data, offset, b[..total])
    ensures (old(remote.failed) || !ok ==> remote.failed) && (old(remote.short) ==> remote.short)
    ensures ok && !remote.failed && total == 0 ==> remote.Available(offset, size) == 0
    ensures ok && !remote.short ==> total == remote.Available(offset, size)
    ensures Largest(remote.asked, |old(remote.asked)|, offset + size, Min(maxXmit - (MIN_SMB_SIZE + 32), 0xFFFF))
    ensures old(remote.asked) <= remote.asked
  {
    total, ok := 0, true;
    var readsize := Min(maxXmit - (MIN_SMB_SIZE + 32), 0xFFFF);
    ghost var limit := readsize;
    while total < size
      invariant 0 <= total <= size && 0 < readsize <= limit && (readsize < limit ==> size - total <= readsize)
      invariant ok && (old(remote.failed) ==> remote.failed) && (old(remote.short) ==> remote.short)
      invariant SliceAt(remote.data, offset, b[..total])
      invariant old(remote.asked) <= remote.asked && Largest(remote.asked, |old(remote.asked)|, offset + size, limit)
      decreases size - total
    {
      readsize := Min(readsize, size - total);
      LargestMore(remote.asked, |old(remote.asked)|, offset + size, limit, offset + total, readsize);
      var n;
      ok, n := ReadOnce(remote, b, offset, total, readsize);
      if !ok {
        return;
      }
      total := total + n;
      if n < readsize {
        break;
      }
    }
  }

  /** smbcli_read: what it returns is a contiguous slice of the file, however the server cuts its replies. */
  method Read(remote: RemoteFile, maxXmit: nat, b: array<byte>, offset: nat, size: nat) returns (total: int)
    requires size <= b.Length && maxXmit > MIN_SMB_SIZE + 32
    modifies remote`failed, remote`short, remote`asked, b
    ensures -1 <= total <= size && (old(remote.failed) ==> remote.failed) && (old(remote.short) ==> remote.short)
    ensures total > 0 ==> SliceAt(remote.data, offset, b[..total])
    ensures !remote.failed ==> total >= 0 && (total == 0 ==> remote.Available(offset, size) == 0)
    ensures !remote.short && total >= 0 ==> total == remote.Available(offset, size)
    ensures Largest(remote.asked, |old(remote.asked)|, offset + size, Min(maxXmit - (MIN_SMB_SIZE + 32), 0xFFFF))
    ensures old(remote.asked) <= remote.asked
  {
    if size == 0 {
      return 0;
    }
    var ok, n := ReadLoop(remote, maxXmit, b, offset, size);
    total := if ok then n else -1;
  }

  /** Where a loop of writes stands: total bytes of the buffer are in the file. */
  ghost predicate Writing(data: seq<byte>, base: seq<byte>, buf: seq<byte>, offset: nat, total: nat) {
    total <= |buf| && data == Splice(base, offset, buf[..total])
  }

  /** One WRITE_ANDX of the loop. */
  method WriteOnce(remote: RemoteFile, buf: seq<byte>, offset: nat, total: nat, block: nat, ghost base: seq<byte>)
    returns (ok: bool, n: nat)
    requires 0 < block && total + block <= |buf| && Writing(remote.data, base, buf, offset, total)
    modifies remote`data, remote`failed, remote`asked
    ensures remote.failed == (old(remote.failed) || !ok)
    ensures remote.asked == old(remote.asked) + [Asked(offset + total, block)]
    ensures (if ok then 0 < n <= block else n == 0) && Writing(remote.data, base, buf, offset, total + n)
  {
    var d := buf[total..total + block];
    ok, n := remote.WriteX(offset + total, d);
    if ok {
      SpliceMore(base, old(remote.data), remote.data, offset, buf, total, d, n);
    } else {
      n := 0;
    }
  }

  lemma WritingStarts(data: seq<byte>, buf: seq<byte>, offset: nat)
    ensures Writing(data, data, buf, offset, 0)
  {
  }

  method WriteLoop(remote: RemoteFile, maxXmit: nat, buf: seq<byte>, offset: nat) returns (ok: bool, total: nat)
    requires maxXmit > MIN_SMB_SIZE + 32
    modifies remote`data, remote`failed, remote`asked
    ensures Writing(remote.data, old(remote.data), buf, offset, total)
    ensures Largest(remote.asked, |old(remote.asked)|, offset + |buf|, Min(maxXmit - (MIN_SMB_SIZE + 32), 0xFFFF))
    ensures (old(remote.failed) ==> remote.failed) && (if ok then total == |buf| else total < |buf| && remote.failed)
    ensures old(remote.asked) <= remote.asked
  {
    total, ok := 0, true;
    var block := Min(maxXmit - (MIN_SMB_SIZE + 32), 0xFFFF);
    ghost var limit := block;
    WritingStarts(remote.data, buf, offset);
    while total < |buf|
      invariant Writing(remote.data, old(remote.data), buf, offset, total)
      invariant old(remote.asked) <= remote.asked && Largest(remote.asked, |old(remote.asked)|, offset + |buf|, limit)
      invariant 0 < block <= limit && (block < limit ==> |buf| - total <= block)
      invariant ok && (old(remote.failed) ==> remote.failed)
      decreases |buf| - total
    {
      block := Min(block, |buf| - total);
      LargestMore(remote.asked, |old(remote.asked)|, offset + |buf|, limit, offset + total, block);
      var n;
      ok, n := WriteOnce(remote, buf, offset, total, block, old(remote.data));
      if !ok {
        return;
      }
      total := total + n;
    }
  }

  /** smbcli_write: the whole buffer is spliced into the file at the offset, or a prefix of it when an error ends the loop. */
  method Write(remote: RemoteFile, maxXmit: nat, buf: seq<byte>, offset: nat) returns (r: int)
    requires maxXmit > MIN_SMB_SIZE + 32
    modifies remote`data, remote`failed, remote`asked
    ensures r == |buf| || r == -1
    ensures r == |buf| ==> remote.data == Splice(old(remote.data), offset, buf)
    ensures r == -1 ==> exists k :: 0 <= k < |buf| && remote.data == Splice(old(remote.data), offset, buf[..k])
    ensures (old(remote.failed) ==> remote.failed) && (r == -1 ==> remote.failed)
    ensures Largest(remote.asked, |old(remote.asked)|, offset + |buf|, Min(maxXmit - (MIN_SMB_SIZE + 32), 0xFFFF))
    ensures old(remote.asked) <= remote.asked
  {
    if |buf| == 0 {
      return 0;
    }
    var ok, total := WriteLoop(remote, maxXmit, buf, offset);
    assert buf[..|buf|] == buf;
    r := if ok then total else -1;
  }

  /** One SMBwrite of the loop; at the end of the buffer it sets the length of the file. */
  method SmbWriteOnce(remote: RemoteFile, buf: seq<byte>, offset: nat, total: nat, size: nat, ghost base: seq<byte>)
    returns (ok: bool, n: nat)
    requires total + size <= |buf| && Writing(remote.data, base, buf, offset, total)
    modifies remote`data, remote`failed, remote`asked
    ensures n <= size && (!ok ==> n == 0)
    ensures if ok && size == 0 then remote.data == Resized(old(remote.data), offset + total)
            else Writing(remote.data, base, buf, offset, total + n)
    ensures (old(remote.failed) ==> remote.failed) && (!ok || (n == 0 && size > 0) ==> remote.failed)
    ensures remote.asked == old(remote.asked) + [Asked(offset + total, size)]
  {
    var d := buf[total..total + size];
    ok, n := remote.WriteCore(offset + total, d);
    if !ok {
      n := 0;
    } else if size > 0 {
      SpliceMore(base, old(remote.data), remote.data, offset, buf, total, d, n);
    }
  }

  /** The loop of smbcli_smbwrite: how much the server took, and whether no call was refused. */
  method SmbWriteLoop(remote: RemoteFile, maxXmit: nat, buf: seq<byte>, offset: nat) returns (ok: bool, total: nat)
    requires maxXmit > 48
    modifies remote`data, remote`failed, remote`asked
    ensures total <= |buf| && Largest(remote.asked, |old(remote.asked)|, offset + |buf|, Min(maxXmit - 48, 0xFFFF))
    ensures if ok && buf == [] then remote.data == Resized(old(remote.data), offset)
            else Writing(remote.data, old(remote.data), buf, offset, total)
    ensures (old(remote.failed) ==> remote.failed) && (!ok || total < |buf| ==> remote.failed)
  {
    total := 0;
    ghost var limit := Min(maxXmit - 48, 0xFFFF);
    WritingStarts(remote.data, buf, offset);
    while true
      invariant Writing(remote.data, old(remote.data), buf, offset, total)
      invariant old(remote.asked) <= remote.asked && Largest(remote.asked, |old(remote.asked)|, offset + |buf|, limit)
      invariant (if buf == [] then remote.data == old(remote.data) else total < |buf|) && (old(remote.failed) ==> remote.failed)
      decreases |buf| - total
    {
      var size := Min(Min(|buf| - total, maxXmit - 48), 0xFFFF);
      LargestMore(remote.asked, |old(remote.asked)|, offset + |buf|, limit, offset + total, size);
      var n;
      ok, n := SmbWriteOnce(remote, buf, offset, total, size, old(remote.data));
      total := total + n;
      if !ok || n == 0 || total == |buf| {
        return;
      }
    }
  }

  /** smbcli_smbwrite: as above with SMBwrite, which stops when the server takes nothing and does not skip empty writes. */
  method SmbWrite(remote: RemoteFile, maxXmit: nat, buf: seq<byte>, offset: nat) returns (r: int)
    requires maxXmit > 48
    modifies remote`data, remote`failed, remote`asked
    ensures -1 <= r <= |buf|
    ensures r >= 0 && buf != [] ==> remote.data == Splice(old(remote.data), offset, buf[..r])
    ensures r == 0 && buf == [] ==> remote.data == Resized(old(remote.data), offset)
    ensures r == -1 ==> exists k :: 0 <= k <= |buf| && remote.data == Splice(old(remote.data), offset, buf[..k])
    ensures (old(remote.failed) ==> remote.failed) && (r < |buf| ==> remote.failed)
    ensures Largest(remote.asked, |old(remote.asked)|, offset + |buf|, Min(maxXmit - 48, 0xFFFF))
  {
    var ok, total := SmbWriteLoop(remote, maxXmit, buf, offset);
    r := if ok then total else -1;
  }

  /** The chunks as they reach the local file. */
  function Received(chunks: seq<seq<byte>>, translation: bool): seq<byte> {
    if translation then DecodeAll(chunks) else Concat(chunks)
  }

  lemma ReceivedAppend(chunks: seq<seq<byte>>, c: seq<byte>, translation: bool)
    ensures Received(chunks + [c], translation) == Received(chunks, translation) + Incoming(c, translation)
  {
    DecodeAllAppend(chunks, c);
    ConcatAppend(chunks, c);
  }

  /** Where the receive loop stands: nread bytes of the remote file have arrived as these chunks. */
  ghost predicate Got(base: seq<byte>, local: seq<byte>, remote: seq<byte>, start: nat, nread: nat, chunks: seq<seq<byte>>, translation: bool) {
    && local == base + Received(chunks, translation)
    && if start + nread <= |remote| then Concat(chunks) == remote[start..start + nread] else nread == 0 && chunks == []
  }

  lemma Associate(a: seq<byte>, b: seq<byte>, c: seq<byte>)
    ensures a + b + c == a + (b + c)
  {
  }

  lemma GotMore(base: seq<byte>, local: seq<byte>, remote: seq<byte>, start: nat, nread: nat, chunks: seq<seq<byte>>, c: seq<byte>, translation: bool)
    requires Got(base, local, remote, start, nread, chunks, translation)
    requires start + nread + |c| <= |remote| && c == remote[start + nread..start + nread + |c|]
    ensures Got(base, local + Incoming(c, translation), remote, start, nread + |c|, chunks + [c], translation)
  {
    assert Concat(chunks + [c]) == remote[start..start + nread + |c|] by {
      ConcatAppend(chunks, c);
      assert remote[start..start + nread + |c|] == remote[start..start + nread] + remote[start + nread..start + nread + |c|];
    }
    assert local + Incoming(c, translation) == base + Received(chunks + [c], translation) by {
      ReceivedAppend(chunks, c, translation);
      Associate(base, Received(chunks, translation), Incoming(c, translation));
    }
  }

  ghost predicate Failed(remote: RemoteFile, local: LocalFile)
    reads remote, local
  {
    remote.failed || local.short
  }

  /** One turn of the receive loop; nothing read ends it. */
  method ReceiveChunk(remote: RemoteFile, maxXmit: nat, local: LocalFile, data: array<byte>, start: nat, nread: nat, translation: bool,
                      ghost base: seq<byte>, ghost chunks: seq<seq<byte>>) returns (rc: int, n: nat, ghost c: seq<byte>)
    requires maxXmit > MIN_SMB_SIZE + 32 && data.Length >= 1
    requires Got(base, local.data, remote.data, start, nread, chunks, translation)
    modifies remote`failed, remote`short, remote`asked, local, data
    ensures (rc == 0 || rc == 1) && n == |c| <= data.Length && (n > 0 ==> start + nread + n <= |remote.data|)
    ensures rc == 0 ==> Got(base, local.data, remote.data, start, nread + n, if n == 0 then chunks else chunks + [c], translation)
    ensures (old(Failed(remote, local)) ==> Failed(remote, local)) && (old(remote.short) ==> remote.short)
    ensures !Failed(remote, local) ==> rc == 0 && (n == 0 ==> start + nread >= |remote.data|)
    ensures !remote.short && 0 < n < data.Length ==> start + nread + n >= |remote.data|
  {
    c := [];
    var k := Read(remote, maxXmit, data, nread + start, data.Length);
    if k <= 0 {
      return 0, 0, [];
    }
    c := data[..k];
    GotMore(base, local.data, remote.data, start, nread, chunks, c, translation);
    var w := local.WriteFile(data, k, translation);
    rc, n := if w != k then 1 else 0, k;
  }

  /** The receive loop of do_get, from the given offset to where a read returns nothing or a write is short. */
  method Receive(remote: RemoteFile, maxXmit: nat, local: LocalFile, bufsize: nat, start: nat, translation: bool)
    returns (rc: int, nread: nat, ghost chunks: seq<seq<byte>>)
    requires maxXmit > MIN_SMB_SIZE + 32 && bufsize >= 1
    modifies remote`failed, remote`short, remote`asked, local
    ensures rc == 0 || rc == 1
    ensures rc == 0 ==> Got(old(local.data), local.data, remote.data, start, nread, chunks, translation)
    ensures (old(Failed(remote, local)) ==> Failed(remote, local)) && (old(remote.short) ==> remote.short)
    ensures !Failed(remote, local) ==> rc == 0 && start + nread >= |remote.data|
    ensures !remote.short ==> Filled(chunks, bufsize)
  {
    var data := new byte[bufsize](_ => 0);
    rc, nread, chunks := 0, 0, [];
    while true
      invariant Got(old(local.data), local.data, remote.data, start, nread, chunks, translation)
      invariant fresh(data) && rc == 0
      invariant (old(Failed(remote, local)) ==> Failed(remote, local)) && (old(remote.short) ==> remote.short)
      invariant !remote.short ==> Filled(chunks, bufsize) && (chunks != [] && |chunks[|chunks| - 1]| < bufsize ==> start + nread >= |remote.data|)
      decreases |remote.data| - (start + nread)
    {
      var n;
      ghost var c;
      rc, n, c := ReceiveChunk(remote, maxXmit, local, data, start, nread, translation, old(local.data), chunks);
      if rc != 0 || n == 0 {
        break;
      }
      chunks := chunks + [c];
      nread := nread + n;
    }
  }

  lemma Resumed(kept: seq<byte>, remote: seq<byte>, local: seq<byte>)
    requires local == if |kept| <= |remote| then kept + remote[|kept|..] else kept
    ensures local == remote <==> kept <= remote
  {
    if kept <= remote {
      assert remote == remote[..|kept|] + remote[|kept|..];
    } else if |kept| <= |remote| {
      assert local[..|kept|] == kept;
    }
  }

  /** do_get once both files are open; closeFails stands for an error on closing the remote file. */
  method DoGet(remote: RemoteFile, maxXmit: nat, local: LocalFile, bufsize: nat, reget: bool, translation: bool, closeFails: bool)
    returns (rc: int, ghost chunks: seq<seq<byte>>)
    requires maxXmit > MIN_SMB_SIZE + 32 && bufsize >= 1
    modifies remote`failed, remote`short, remote`asked, local
    ensures (old(Failed(remote, local)) ==> Failed(remote, local)) && (old(remote.short) ==> remote.short)
    ensures !Failed(remote, local) ==> (rc == 0 <==> !closeFails)
    ensures !remote.short ==> Filled(chunks, bufsize)
    ensures var kept := if reget then old(local.data) else [];
            rc == 0 ==>
              if |kept| <= |remote.data|
              then Concat(chunks) == remote.data[|kept|..] && local.data == kept + Received(chunks, translation)
              else local.data == kept
    ensures rc == 0 && !translation ==>
              (local.data == remote.data <==> (if reget then old(local.data) else []) <= remote.data)
  {
    if !reget {
      local.data := [];
    }
    ghost var kept := local.data;
    var start := |local.data|;
    var nread;
    rc, nread, chunks := Receive(remote, maxXmit, local, bufsize, start, translation);
    if nread + start < |remote.data| {
      rc := 1;
    }
    if closeFails {
      rc := 1;
    }
    if rc == 0 && !translation {
      Resumed(kept, remote.data, local.data);
    }
  }

  /** Where the send loop stands: the local bytes before pos are in the remote file, nread bytes of it. */
  ghost predicate Sent(base: seq<byte>, remote: seq<byte>, start: nat, f: seq<byte>, from: nat, pos: nat, nread: nat, translation: bool) {
    && from <= pos <= |f|
    && nread == |Outgoing(f[from..pos], translation)|
    && remote == Splice(base, start, Outgoing(f[from..pos], translation))
  }

  lemma OutgoingSlices(f: seq<byte>, from: nat, pos: nat, pos': nat, translation: bool)
    requires from <= pos <= pos' <= |f|
    ensures Outgoing(f[from..pos'], translation) == Outgoing(f[from..pos], translation) + Outgoing(f[pos..pos'], translation)
  {
    assert f[from..pos'] == f[from..pos] + f[pos..pos'];
    OutgoingAppend(f[from..pos], f[pos..pos'], translation);
  }

  lemma {:induction false} SentMore(base: seq<byte>, remote: seq<byte>, start: nat, f: seq<byte>, from: nat, pos: nat, pos': nat, nread: nat, translation: bool)
    requires Sent(base, remote, start, f, from, pos, nread, translation) && pos <= pos' <= |f|
    ensures var c := Outgoing(f[pos..pos'], translation);
            Sent(base, Splice(remote, nread + start, c), start, f, from, pos', nread + |c|, translation)
  {
    OutgoingSlices(f, from, pos, pos', translation);
    SpliceTwice(base, start, Outgoing(f[from..pos], translation), Outgoing(f[pos..pos'], translation));
  }

  /** One turn of the send loop; reading nothing is an error unless the file has ended. */
  method SendChunk(remote: RemoteFile, maxXmit: nat, f: XFile, buf: array<byte>, start: nat, nread: nat, translation: bool,
                   ghost base: seq<byte>, ghost from: nat) returns (rc: int, n: nat)
    requires maxXmit > MIN_SMB_SIZE + 32 && buf.Length >= 1 && f.Valid()
    requires Sent(base, remote.data, start, f.data, from, f.pos, nread, translation)
    modifies remote`data, remote`failed, remote`asked, f, buf
    ensures f.Valid() && (old(remote.failed) ==> remote.failed) && (rc == 0 || rc == 1)
    ensures rc == 0 ==> Sent(base, remote.data, start, f.data, from, f.pos, nread + n, translation) && (f.pos > old(f.pos) || f.eof)
    ensures if translation && buf.Length == 1 && !old(f.eof) then rc == 1 else !remote.failed ==> rc == 0
    ensures n == buf.Length || (translation && n == buf.Length - 1) || f.pos == |f.data|
    ensures n > 0 ==> old(f.pos) < |f.data|
  {
    n := f.ReadFile(buf, buf.Length, translation);
    if n < 1 {
      return if f.eof then 0 else 1, 0;
    }
    SentMore(base, remote.data, start, f.data, from, old(f.pos), f.pos, nread, translation);
    var ret := Write(remote, maxXmit, buf[..n], nread + start);
    rc := if n != ret then 1 else 0;
  }

  /** Every chunk sent before the end of the file fills the buffer, or leaves the one byte that a CR LF would not fit in. */
  predicate NearlyFull(sizes: seq<nat>, bufsize: nat, translation: bool, ended: bool) {
    forall i :: 0 <= i < |sizes| - (if ended then 1 else 0) ==> sizes[i] == bufsize || (translation && sizes[i] == bufsize - 1)
  }

  /** The send loop of do_put. */
  method Send(remote: RemoteFile, maxXmit: nat, f: XFile, bufsize: nat, start: nat, translation: bool)
    returns (rc: int, ghost sizes: seq<nat>)
    requires maxXmit > MIN_SMB_SIZE + 32 && bufsize >= 1 && f.Valid() && !f.eof
    modifies remote`data, remote`failed, remote`asked, f
    ensures rc == 0 || rc == 1
    ensures rc == 0 ==> remote.data == Splice(old(remote.data), start, Outgoing(f.data[old(f.pos)..], translation))
    ensures old(remote.failed) ==> remote.failed
    ensures if translation && bufsize == 1 then rc == 1 else !remote.failed ==> rc == 0
    ensures NearlyFull(sizes, bufsize, translation, true)
  {
    var buf := new byte[bufsize](_ => 0);
    var nread := 0;
    rc, sizes := 0, [];
    while !f.eof
      invariant f.Valid() && fresh(buf) && (old(remote.failed) ==> remote.failed)
      invariant Sent(old(remote.data), remote.data, start, f.data, old(f.pos), f.pos, nread, translation)
      invariant translation && bufsize == 1 ==> !f.eof
      invariant NearlyFull(sizes, bufsize, translation, f.pos == |f.data|)
      decreases |f.data| - f.pos, !f.eof
    {
      var n;
      rc, n := SendChunk(remote, maxXmit, f, buf, start, nread, translation, old(remote.data), old(f.pos));
      if n > 0 {
        sizes := sizes + [n];
      }
      if rc != 0 {
        return;
      }
      nread := nread + n;
    }
    assert f.data[old(f.pos)..f.pos] == f.data[old(f.pos)..];
  }

  /** do_put once both files are open. */
  method DoPut(remote: RemoteFile, maxXmit: nat, f: XFile, bufsize: nat, reput: bool, translation: bool, closeFails: bool) returns (rc: int)
    requires maxXmit > MIN_SMB_SIZE + 32 && bufsize >= 1 && f.Valid() && f.pos == 0 && !f.eof
    modifies remote`data, remote`failed, remote`asked, f
    ensures var kept := if reput then old(remote.data) else [];
            rc == 0 ==> remote.data == kept + Outgoing(if |kept| <= |f.data| then f.data[|kept|..] else [], translation)
    ensures rc == 0 && !translation ==>
              (remote.data == f.data <==> (if reput then old(remote.data) else []) <= f.data)
    ensures var kept := if reput then old(remote.data) else [];
            rc == 0 && translation ==>
              (remote.data == Encode(f.data) <==>
               if |kept| <= |f.data| then kept <= f.data && LF !in kept else kept == Encode(f.data))
    ensures old(remote.failed) ==> remote.failed
    ensures if translation && bufsize == 1 then rc == 1 else !remote.failed ==> (rc == 0 <==> !closeFails)
  {
    var start := 0;
    if reput {
      start := |remote.data|;
      f.Seek(start);
    } else {
      remote.data := [];
    }
    ghost var kept := remote.data;
    ghost var sizes;
    rc, sizes := Send(remote, maxXmit, f, bufsize, start, translation);
    SpliceAtEnd(kept, Outgoing(if |kept| <= |f.data| then f.data[|kept|..] else [], translation));
    if rc == 0 && !translation {
      Resumed(kept, f.data, remote.data);
    } else if rc == 0 {
      if |kept| <= |f.data| {
        EncodedHead(kept, f.data);
      } else {
        assert kept + Encode([]) == kept;
      }
    }
    if closeFails {
      return 1;
    }
  }

  /**
   A file put and got back is itself. With translation it has a CR more for every CR LF that a read boundary
   split, and as long as no reply is short these are the ones that straddle a multiple of the buffer size.
   */
  method PutThenGet(text: seq<byte>, maxXmit: nat, bufsize: nat, translation: bool, remote: RemoteFile, local: LocalFile)
    returns (ok: bool, copy: seq<byte>, ghost chunks: seq<seq<byte>>)
    requires maxXmit > MIN_SMB_SIZE + 32 && bufsize >= 1
    modifies remote, local
    ensures !Failed(remote, local) ==> (ok <==> !(translation && bufsize == 1))
    ensures ok && !translation ==> copy == text
    ensures ok && translation ==> Concat(chunks) == Encode(text) && copy == WithStrayCRs(text, chunks, 0)
    ensures ok && translation && !remote.short ==> |copy| == |text| + Straddling(text, bufsize, 0)
    ensures ok && translation && !remote.short ==> (copy == text <==> !Straddles(text, bufsize))
  {
    var f := new XFile(text);
    var put := DoPut(remote, maxXmit, f, bufsize, false, translation, false);
    assert text[0..] == text;
    var get;
    get, chunks := DoGet(remote, maxXmit, local, bufsize, false, translation, false);
    ok := put == 0 && get == 0;
    copy := local.data;
    if ok && translation {
      ChunkedRoundTrip(text, chunks);
      if !remote.short {
        FilledRoundTrip(text, chunks, bufsize);
      }
    }
  }
}
