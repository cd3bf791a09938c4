/** The cifsdd block copier: a buffer between reads of ibs bytes and writes of obs bytes, either of which may be short. */
module BlockCopy {
  import opened Wrappers
  import opened Bytes

  const TWO64: nat := 0x1_0000_0000_0000_0000

  /** The input handle. A read may return any number of bytes up to the number wanted; none means end of file. */
  class Input {
    const data: seq<byte>
    var pos: nat
    var eof: bool           // DD_END_OF_FILE in io_flags
    ghost var full: bool    // every read so far returned all it could
    ghost var failed: bool  // some read failed
    ghost var ended: bool   // some read returned nothing

    ghost predicate Valid()
      reads this
    {
      pos <= |data|
    }

    constructor (data: seq<byte>)
      ensures Valid() && this.data == data && pos == 0 && !eof && full && !failed && !ended
    {
      this.data := data;
      pos, eof, full, failed, ended := 0, false, true, false, false;
    }

    method Read(buf: array<byte>, at: nat, wanted: nat) returns (ok: bool, actual: nat)
      requires Valid() && at + wanted <= buf.Length
      modifies this`pos, this`full, this`failed, this`ended, buf
      ensures Valid() && (ok ==> actual <= wanted && pos == old(pos) + actual)
      ensures !ok ==> pos == old(pos)
      ensures failed == (old(failed) || !ok) && ended == (old(ended) || (ok && actual == 0))
      ensures forall i :: 0 <= i < at ==> buf[i] == old(buf[i])
      ensures ok ==> buf[at..at + actual] == data[old(pos)..pos]
      ensures full == (old(full) && ok && actual == Min(wanted, |data| - old(pos)))
    {
      ok := *;
      actual := 0;
      if ok {
        actual :| 0 <= actual <= wanted && actual <= |data| - pos;
        full := full && actual == Min(wanted, |data| - pos);
        Put(buf, at, data[pos..pos + actual]);
        pos := pos + actual;
        ended := ended || actual == 0;
      } else {
        full, failed := false, true;
      }
    }
  }

  /** A write: where in the output it begins, and how many bytes are offered. */
  datatype Offer = Offer(at: nat, size: nat)

  /** The output handle. A write may take any number of the bytes offered. */
  class Output {
    var written: seq<byte>
    ghost var failed: bool        // some write failed or took nothing
    ghost var whole: bool         // every write so far took all it was offered
    ghost var offers: seq<Offer>  // every write so far

    constructor ()
      ensures written == [] && !failed && whole && offers == []
    {
      written, failed, whole, offers := [], false, true, [];
    }

    method Write(buf: array<byte>, at: nat, wanted: nat) returns (ok: bool, actual: nat)
      requires at + wanted <= buf.Length
      modifies this
      ensures ok ==> actual <= wanted && written == old(written) + buf[at..at + actual]
      ensures !ok ==> written == old(written)
      ensures failed == (old(failed) || !ok || actual == 0)
      ensures whole == (old(whole) && ok && actual == wanted)
      ensures offers == old(offers) + [Offer(|old(written)|, wanted)]
    {
      offers := offers + [Offer(|written|, wanted)];
      ok := *;
      actual := 0;
      if ok {
        actual :| 0 <= actual <= wanted;
        written := written + buf[at..at + actual];
      }
      failed := failed || !ok || actual == 0;
      whole := whole && ok && actual == wanted;
    }
  }

  /** The block counters of one side: bs bytes for each full block, and for each partial one at least 1 and fewer than bs. */
  predicate Accounted(fblocks: nat, pblocks: nat, bs: nat, bytes: nat) {
    fblocks * bs + pblocks <= bytes <= fblocks * bs + pblocks * (bs - 1)
  }

  lemma AccountBlock(fblocks: nat, pblocks: nat, bs: nat, bytes: nat, k: nat)
    requires Accounted(fblocks, pblocks, bs, bytes) && 0 < k <= bs
    ensures if k == bs then Accounted(fblocks + 1, pblocks, bs, bytes + k) else Accounted(fblocks, pblocks + 1, bs, bytes + k)
  {
    assert (fblocks + 1) * bs == fblocks * bs + bs;
    assert (pblocks + 1) * (bs - 1) == pblocks * (bs - 1) + (bs - 1);
  }

  lemma AccountedBounds(fblocks: nat, pblocks: nat, bs: nat, bytes: nat)
    requires Accounted(fblocks, pblocks, bs, bytes)
    ensures fblocks * bs <= bytes <= (fblocks + pblocks) * bs
  {
    assert (fblocks + pblocks) * bs == fblocks * bs + pblocks * (bs - 1) + pblocks;
  }

  /** Each write offers the next block, or what is left where less than a block is: len bytes are to be written in all. */
  ghost predicate InBlocks(offers: seq<Offer>, bs: nat, len: nat) {
    forall i :: 0 <= i < |offers| ==> offers[i].at <= len && offers[i].size == Min(bs, len - offers[i].at)
  }

  lemma OneMoreBlock(offers: seq<Offer>, bs: nat, len: nat, at: nat)
    requires InBlocks(offers, bs, len) && at + bs <= len
    ensures InBlocks(offers + [Offer(at, bs)], bs, len)
  {
  }

  /** Blocks offered from what has been read stay blocks when more is read, as long as none was cut short by the end. */
  lemma StillInBlocks(offers: seq<Offer>, bs: nat, len: nat, len': nat)
    requires InBlocks(offers, bs, len) && len <= len' && AllFull(offers, bs)
    ensures InBlocks(offers, bs, len')
  {
    forall i | 0 <= i < |offers|
      ensures offers[i].size == Min(bs, len' - offers[i].at)
    {
      assert offers[i].size == bs;
    }
  }

  ghost predicate AllFull(offers: seq<Offer>, bs: nat) {
    forall i :: 0 <= i < |offers| ==> offers[i].size == bs
  }

  /** With at most one partial block the counters are quotient and remainder. */
  lemma CountersAre(fblocks: nat, pblocks: nat, bs: nat, bytes: nat)
    requires bs > 0 && Accounted(fblocks, pblocks, bs, bytes) && pblocks <= 1
    ensures fblocks == bytes / bs && pblocks == if bytes % bs == 0 then 0 else 1
  {
    QuotientIs(bytes, bs, fblocks, bytes - fblocks * bs);
  }

  /** Where the copy stops when every read is full: the first multiple of ibs, at least one, that reaches the limit. */
  function StopBlocks(limit: nat, ibs: nat): nat
    requires ibs > 0
  {
    if limit == 0 then 1 else (limit - 1) / ibs + 1
  }

  lemma StopBlocksBounds(limit: nat, ibs: nat)
    requires ibs > 0
    ensures limit <= StopBlocks(limit, ibs) * ibs
    ensures StopBlocks(limit, ibs) > 1 ==> (StopBlocks(limit, ibs) - 1) * ibs < limit
  {
    if limit > 0 {
      var q := (limit - 1) / ibs;
      assert limit - 1 == q * ibs + (limit - 1) % ibs;
      assert (q + 1) * ibs == q * ibs + ibs;
    }
  }

  lemma {:induction false} MulMono(a: nat, b: nat, d: nat)
    requires a <= b
    ensures a * d <= b * d
  {
    assert b * d == a * d + (b - a) * d;
  }

  lemma QuotientIs(n: nat, d: nat, q: nat, r: nat)
    requires d > 0 && r < d && n == q * d + r
    ensures n / d == q
  {
    if n / d < q {
      MulMono(n / d + 1, q, d);
      assert false;
    } else if n / d > q {
      MulMono(q + 1, n / d, d);
      assert false;
    }
  }

  /** Without wrap-around the stop is the block count asked for; a count of zero still lets one block through. */
  lemma StopIsCount(ibs: nat, count: nat)
    requires ibs > 0
    ensures StopBlocks(ibs * count, ibs) == Max(count, 1)
  {
    if count > 0 {
      assert ibs * count - 1 == (count - 1) * ibs + (ibs - 1);
      QuotientIs(ibs * count - 1, ibs, count - 1, ibs - 1);
    }
  }

  lemma LimitIs(ibs: nat, count: nat)
    requires ibs > 0 && ibs * count < TWO64
    ensures ibs * count % TWO64 == ibs * count
    ensures StopBlocks(ibs * count, ibs) * ibs == ibs * Max(count, 1)
  {
    StopIsCount(ibs, count);
  }

  /** k blocks were asked for, the last of them because the total before it was short of the limit. */
  lemma ExactStop(limit: nat, ibs: nat, len: nat, k: nat)
    requires ibs > 0 && k >= 1
    requires k == 1 || Min((k - 1) * ibs, len) < limit
    requires Min(k * ibs, len) >= limit || Min(k * ibs, len) == len
    ensures Min(k * ibs, len) == Min(StopBlocks(limit, ibs) * ibs, len)
  {
    var n := StopBlocks(limit, ibs);
    StopBlocksBounds(limit, ibs);
    if k < n {
      MulMono(k, n - 1, ibs);
      MulMono(k, n, ibs);
    } else if k > n {
      MulMono(n, k - 1, ibs);
      MulMono(n, k, ibs);
    }
  }

  lemma MoreRead(written: seq<byte>, held: seq<byte>, more: seq<byte>, data: seq<byte>, pos: nat, pos': nat)
    requires pos <= pos' <= |data| && written + held == data[..pos] && more == data[pos..pos']
    ensures written + (held + more) == data[..pos']
  {
    assert data[..pos'] == data[..pos] + data[pos..pos'];
    assert written + (held + more) == written + held + more;
  }

  lemma MoreWritten(written: seq<byte>, held: seq<byte>, all: seq<byte>, k: nat)
    requires k <= |held| && written + held == all
    ensures written + held[..k] + held[k..] == all && written + held[..k] <= all
  {
    assert held == held[..k] + held[k..];
  }

  /**
   How far the reading has come after k turns of the copy loop: within the limit while the loop goes on, and
   at a known place when every read is full and the block sizes agree.
   */
  ghost predicate Progress(limit: nat, k: nat, ibs: nat, obs: nat, pos: nat, len: nat, eof: bool, full: bool) {
    && pos <= Max(limit - 1, 0) + obs + ibs - 1
    && (full && ibs == obs ==> pos == Min(k * ibs, len) && (k > 1 ==> Min((k - 1) * ibs, len) < limit))
    && if eof then k >= 1 && (full ==> pos >= limit || pos == len)
       else if k == 0 then pos == 0 else 0 < pos < limit
  }

  lemma ProgressStep(limit: nat, k: nat, ibs: nat, obs: nat, pos: nat, pos': nat, len: nat, eof: bool, full: bool)
    requires Progress(limit, k, ibs, obs, pos, len, false, full)
    requires pos <= pos' < pos + obs + ibs && (eof || pos' > pos)
    requires full && eof ==> pos' == len
    requires full && ibs == obs ==> pos' == Min(pos + ibs, len)
    ensures Progress(limit, k + 1, ibs, obs, pos', len, eof || pos' >= limit, full)
  {
    assert (k + 1) * ibs == k * ibs + ibs;
  }

  /** dd_sigint, which a signal may set at any time. */
  class Signals {
    ghost var raised: bool

    constructor ()
      ensures !raised
    {
      raised := false;
    }

    method Interrupted() returns (b: bool)
      modifies this
      ensures raised == (old(raised) || b)
    {
      b := *;
      raised := raised || b;
    }
  }

  datatype ExitCode = Success | IoError

  class Copier {
    const ibs: nat
    const obs: nat
    const input: Input
    const output: Output
    const iobuf: array<byte>
    var dataSize: nat

    // dd_stats
    var inFull: nat

    var inPartial: nat
    var inBytes: nat
    var outFull: nat
    var outPartial: nat
    var outBytes: nat

    ghost predicate OutputCounted()
      reads this, output
    {
      outBytes == |output.written| && Accounted(outFull, outPartial, obs, outBytes)
    }

    /**
     The writes are in blocks of what has been read, all of them full until the end of the input; while every write
     takes all it is offered the only partial block is the last, and empties the buffer.
     */
    ghost predicate Blocked()
      reads this, input, output
    {
      && InBlocks(output.offers, obs, input.pos) && (!input.eof ==> AllFull(output.offers, obs))
      && (output.whole ==> outPartial == 0 || (outPartial == 1 && dataSize == 0 && input.eof))
    }

    /** While every read is full the only partial block read is the last of the input. */
    ghost predicate ReadInBlocks()
      reads this, input
    {
      input.full ==> inPartial == 0 || (inPartial == 1 && input.pos == |input.data|)
    }

    /** Conservation: what was written, followed by what the buffer holds, is what was read. */
    ghost predicate Valid()
      reads this, input, output, iobuf
    {
      && ibs > 0 && obs > 0 && iobuf.Length == 2 * Max(ibs, obs)
      && input.Valid() && dataSize <= iobuf.Length
      && output.written + iobuf[..dataSize] == input.data[..input.pos]
      && inBytes == input.pos && Accounted(inFull, inPartial, ibs, inBytes)
      && OutputCounted() && Blocked() && ReadInBlocks()
    }

    constructor (ibs: nat, obs: nat, input: Input, output: Output)
      requires ibs > 0 && obs > 0 && 2 * Max(ibs, obs) < TWO64
      requires input.Valid() && input.pos == 0 && output.written == [] && output.offers == []
      ensures Valid() && fresh(iobuf) && dataSize == 0 && inBytes == 0
      ensures this.ibs == ibs && this.obs == obs && this.input == input && this.output == output
    {
      this.ibs, this.obs, this.input, this.output := ibs, obs, input, output;
      iobuf := new byte[2 * Max(ibs, obs)](_ => 0);
      dataSize := 0;
      inFull, inPartial, inBytes, outFull, outPartial, outBytes := 0, 0, 0, 0, 0, 0;
    }

    /** The input statistics after a read; a read of nothing is not a block. */
    method CountRead(n: nat)
      requires Accounted(inFull, inPartial, ibs, inBytes) && n <= ibs && ibs > 0
      modifies this`inFull, this`inPartial, this`inBytes
      ensures Accounted(inFull, inPartial, ibs, inBytes) && inBytes == old(inBytes) + n
      ensures inFull == old(inFull) + (if n == ibs then 1 else 0)
      ensures inPartial == old(inPartial) + (if 0 < n < ibs then 1 else 0)
    {
      if n == 0 {
        return;
      }
      AccountBlock(inFull, inPartial, ibs, inBytes, n);
      inBytes := inBytes + n;
      if n == ibs {
        inFull := inFull + 1;
      } else {
        inPartial := inPartial + 1;
      }
    }

    /** One read of ibs bytes to the end of the buffer. */
    method ReadBlock() returns (ok: bool, n: nat)
      requires Valid() && dataSize < obs && !input.eof
      modifies this`dataSize, this`inFull, this`inPartial, this`inBytes, input`pos, input`full, input`failed, input`ended, iobuf
      ensures Valid() && (ok ==> n <= ibs) && (!ok ==> input.failed)
      ensures input.ended == (old(input.ended) || (ok && n == 0))
      ensures dataSize == old(dataSize) + (if ok then n else 0) && input.pos == old(input.pos) + (if ok then n else 0)
      ensures input.full == (old(input.full) && ok && n == Min(ibs, |input.data| - old(input.pos)))
    {
      ghost var held := iobuf[..dataSize];
      ok, n := input.Read(iobuf, dataSize, ibs);
      assert iobuf[..dataSize] == held;
      if !ok {
        return;
      }
      MoreRead(output.written, held, iobuf[dataSize..dataSize + n], input.data, old(input.pos), input.pos);
      assert iobuf[..dataSize + n] == held + iobuf[dataSize..dataSize + n];
      StillInBlocks(output.offers, obs, old(input.pos), input.pos);
      dataSize := dataSize + n;
      CountRead(n);
    }

    /** dd_fill_block: reads until obs bytes are held, or to the end of the input. */
    method Fill() returns (ok: bool)
      requires Valid() && dataSize < obs && !input.eof
      modifies this`dataSize, this`inFull, this`inPartial, this`inBytes, input, iobuf
      ensures Valid() && dataSize < obs + ibs
      ensures inBytes - old(inBytes) == dataSize - old(dataSize) >= 0
      ensures if ok then dataSize >= obs || input.eof else input.failed
      ensures (old(input.ended) || input.eof) ==> input.ended
      ensures ok && inBytes == old(inBytes) ==> input.eof
      ensures input.full ==> old(input.full) && (input.eof ==> input.pos == |input.data|)
      ensures ok && input.full && ibs == obs ==> input.pos == Min(old(input.pos) + ibs, |input.data|)
    {
      while dataSize < obs
        invariant Valid() && dataSize < obs + ibs && !input.eof
        invariant inBytes - old(inBytes) == dataSize - old(dataSize) >= 0
        invariant (input.full ==> old(input.full)) && (old(input.ended) ==> input.ended)
        invariant inBytes == old(inBytes) || (input.full && ibs == obs ==> input.pos == Min(old(input.pos) + ibs, |input.data|))
        decreases |input.data| - input.pos
      {
        var n;
        ok, n := ReadBlock();
        if !ok {
          return;
        }
        if n == 0 {
          input.eof := true;
          return;
        }
      }
      ok := true;
    }

    /** One write from the given place in the buffer; false on an error or when nothing was taken. */
    method WriteBlock(at: nat, wanted: nat) returns (ok: bool, n: nat)
      requires at + wanted <= iobuf.Length && wanted <= obs && OutputCounted()
      modifies this`outFull, this`outPartial, this`outBytes, output
      ensures OutputCounted()
      ensures ok ==> 0 < n <= wanted && output.written == old(output.written) + iobuf[at..at + n]
      ensures !ok ==> output.written == old(output.written) && output.failed
      ensures output.offers == old(output.offers) + [Offer(|old(output.written)|, wanted)]
      ensures ok ==> output.whole == (old(output.whole) && n == wanted)
      ensures ok ==> outPartial == old(outPartial) + (if n < obs then 1 else 0)
    {
      ok, n := output.Write(iobuf, at, wanted);
      if !ok {
        return;
      }
      if n == 0 {
        assert output.written == old(output.written);
        return false, 0;
      }
      AccountBlock(outFull, outPartial, obs, outBytes, n);
      if n == obs {
        outFull := outFull + 1;
      } else {
        outPartial := outPartial + 1;
      }
      outBytes := outBytes + n;
    }

    /** The write of a partial block, which is all that is left; len bytes are to be written in all. */
    method WritePartial(ghost len: nat) returns (ok: bool, n: nat)
      requires OutputCounted() && 0 < dataSize < obs && dataSize <= iobuf.Length
      requires InBlocks(output.offers, obs, len) && len == |output.written| + dataSize
      modifies this`outFull, this`outPartial, this`outBytes, output
      ensures OutputCounted() && InBlocks(output.offers, obs, len) && n <= dataSize
      ensures output.written == old(output.written) + iobuf[..n]
      ensures if ok then n > 0 else output.failed
      ensures ok && output.whole ==> old(output.whole) && n == dataSize && outPartial == old(outPartial) + 1
    {
      ok, n := WriteBlock(0, dataSize);
      if !ok {
        n := 0;
        assert output.written == old(output.written) + iobuf[..0];
      }
    }

    /** The writes of full blocks, while there are any. */
    method WriteFull(ghost len: nat) returns (ok: bool, total: nat)
      requires OutputCounted() && 0 < obs <= dataSize <= iobuf.Length
      requires InBlocks(output.offers, obs, len) && len == |output.written| + dataSize
      modifies this`outFull, this`outPartial, this`outBytes, output
      ensures OutputCounted() && InBlocks(output.offers, obs, len) && total <= dataSize
      ensures output.written == old(output.written) + iobuf[..total]
      ensures if ok then total > 0 && dataSize - total < obs else output.failed
      ensures old(AllFull(output.offers, obs)) ==> AllFull(output.offers, obs)
      ensures ok && output.whole ==> old(output.whole) && outPartial == old(outPartial)
    {
      total := 0;
      while dataSize - total >= obs
        invariant OutputCounted() && InBlocks(output.offers, obs, len) && total <= dataSize
        invariant output.written == old(output.written) + iobuf[..total]
        invariant old(AllFull(output.offers, obs)) ==> AllFull(output.offers, obs)
        invariant output.whole ==> old(output.whole) && outPartial == old(outPartial)
        decreases dataSize - total
      {
        var n;
        ghost var offers, at := output.offers, |output.written|;
        ok, n := WriteBlock(total, obs);
        OneMoreBlock(offers, obs, len, at);
        if !ok {
          return;
        }
        assert iobuf[..total + n] == iobuf[..total] + iobuf[total..total + n];
        total := total + n;
      }
      ok := true;
    }

    /** The writes of dd_flush_block: one partial block, which leaves nothing for the loop, or full blocks while there are any. */
    method WriteOut(ghost len: nat) returns (ok: bool, total: nat)
      requires OutputCounted() && obs > 0 && 0 < dataSize <= iobuf.Length
      requires InBlocks(output.offers, obs, len) && len == |output.written| + dataSize
      modifies this`outFull, this`outPartial, this`outBytes, output
      ensures OutputCounted() && InBlocks(output.offers, obs, len) && total <= dataSize
      ensures output.written == old(output.written) + iobuf[..total]
      ensures if ok then total > 0 && dataSize - total < obs else output.failed
      ensures dataSize >= obs && old(AllFull(output.offers, obs)) ==> AllFull(output.offers, obs)
      ensures ok && output.whole ==> old(output.whole)
      ensures ok && output.whole ==>
                if dataSize < obs then total == dataSize && outPartial == old(outPartial) + 1 else outPartial == old(outPartial)
    {
      if dataSize < obs {
        ok, total := WritePartial(len);
      } else {
        ok, total := WriteFull(len);
      }
    }

    /** Moves what has not been written to the front of the buffer. */
    method Shift(total: nat)
      requires total <= dataSize <= iobuf.Length
      modifies this`dataSize, iobuf
      ensures dataSize == old(dataSize) - total && iobuf[..dataSize] == old(iobuf[total..dataSize])
    {
      var remain := dataSize - total;
      forall i | 0 <= i < remain {
        iobuf[i] := iobuf[total + i];
      }
      dataSize := remain;
    }

    /** dd_flush_block: writes what it can in units of obs and moves the rest to the front of the buffer. */
    method Flush() returns (ok: bool)
      requires Valid() && dataSize > 0 && (dataSize < obs ==> input.eof)
      modifies this`dataSize, this`outFull, this`outPartial, this`outBytes, output, iobuf
      ensures OutputCounted() && output.written <= input.data[..input.pos] && InBlocks(output.offers, obs, input.pos)
      ensures if ok then Valid() && dataSize < obs && dataSize < old(dataSize) else output.failed
    {
      ghost var held := iobuf[..dataSize];
      assert |output.written + held| == input.pos;
      var total;
      ok, total := WriteOut(input.pos);
      assert iobuf[..total] == held[..total];
      MoreWritten(old(output.written), held, input.data[..input.pos], total);
      if !ok {
        return;
      }
      assert iobuf[total..dataSize] == held[total..];
      Shift(total);
    }

    /** Flushes until the buffer is empty, as at end of file. */
    method FlushAll() returns (ok: bool)
      requires Valid() && input.eof
      modifies this`dataSize, this`outFull, this`outPartial, this`outBytes, output, iobuf
      ensures OutputCounted() && output.written <= input.data[..input.pos] && InBlocks(output.offers, obs, input.pos)
      ensures if ok then Valid() && dataSize == 0 else output.failed
    {
      while dataSize > 0
        invariant Valid()
        decreases dataSize
      {
        ok := Flush();
        if !ok {
          return;
        }
      }
      ok := true;
    }

    ghost predicate Reached(limit: nat, k: nat)
      reads this, input
    {
      && inBytes == input.pos && Progress(limit, k, ibs, obs, input.pos, |input.data|, input.eof, input.full)
      && (input.eof ==> input.pos >= limit || input.ended)
    }

    /** What holds even after an error: a prefix of what was read has been written, in blocks. */
    ghost predicate Safe()
      reads this, input, output
    {
      && OutputCounted() && input.Valid() && inBytes == input.pos
      && output.written <= input.data[..input.pos] && InBlocks(output.offers, obs, input.pos)
    }

    /** The first half of a turn: fill, and test the block count. */
    method FillTurn(limit: nat, ghost k: nat) returns (ok: bool)
      requires Valid() && dataSize < obs && !input.eof && Reached(limit, k)
      modifies this`dataSize, this`inFull, this`inPartial, this`inBytes, input, iobuf
      ensures Valid() && inBytes >= old(inBytes) && inBytes <= Max(limit - 1, 0) + obs + ibs - 1
      ensures if ok then Reached(limit, k + 1) && (dataSize < obs ==> input.eof) else input.failed
      ensures ok ==> input.eof || input.pos > old(input.pos)
    {
      ghost var start := input.pos;
      ok := Fill();
      if !ok {
        return;
      }
      ProgressStep(limit, k, ibs, obs, start, input.pos, |input.data|, input.eof, input.full);
      if inBytes >= limit {
        input.eof := true;
      }
    }

    /** A turn of the copy loop before end of file: fill, test the block count, flush. */
    method Turn(limit: nat, ghost k: nat) returns (ok: bool)
      requires Valid() && dataSize < obs && !input.eof && Reached(limit, k)
      modifies this`dataSize, this`inFull, this`inPartial, this`inBytes, this`outFull, this`outPartial, this`outBytes
      modifies input, output, iobuf
      ensures Safe() && inBytes >= old(inBytes) && inBytes <= Max(limit - 1, 0) + obs + ibs - 1
      ensures ok ==> Valid() && dataSize < obs && Reached(limit, k + 1)
      ensures if ok then input.eof || input.pos > old(input.pos) else input.failed || output.failed
    {
      ok := FillTurn(limit, k);
      if !ok {
        return;
      }
      if dataSize != 0 {
        ok := Flush();
      }
    }

    /** Where the copy has stopped, if nothing interrupted it. */
    ghost predicate Stopped(limit: nat)
      requires ibs > 0
      reads this, input
    {
      && (input.pos >= limit || input.ended)
      && (input.full ==> input.pos >= limit || input.pos == |input.data|)
      && (input.full && ibs == obs ==> input.pos == Min(StopBlocks(limit, ibs) * ibs, |input.data|))
    }

    lemma StopsThere(limit: nat, k: nat)
      requires ibs > 0 && Reached(limit, k) && input.eof
      ensures Stopped(limit)
    {
      if input.full && ibs == obs {
        ExactStop(limit, ibs, |input.data|, k);
      }
    }

    /** The end of the copy: what is left in the buffer is written. */
    method Finish(limit: nat, ghost k: nat) returns (code: ExitCode)
      requires Valid() && Reached(limit, k) && input.eof
      modifies this`dataSize, this`outFull, this`outPartial, this`outBytes, output, iobuf
      ensures Safe() && Stopped(limit) && inBytes <= Max(limit - 1, 0) + obs + ibs - 1
      ensures if code == Success then Valid() && dataSize == 0 else output.failed
    {
      StopsThere(limit, k);
      var ok := FlushAll();
      code := if ok then Success else IoError;
    }

    lemma SafeWhenValid(limit: nat, k: nat)
      requires Valid() && Reached(limit, k)
      ensures Safe() && inBytes <= Max(limit - 1, 0) + obs + ibs - 1
    {
    }

    /** The copy loop. interrupted is set when SIGINT ended it, which it may do at any turn. */
    method CopyLoop(limit: nat, signals: Signals) returns (code: ExitCode, interrupted: bool)
      requires Valid() && dataSize == 0 && inBytes == 0 && !input.eof
      modifies this`dataSize, this`inFull, this`inPartial, this`inBytes, this`outFull, this`outPartial, this`outBytes
      modifies input, output, iobuf, signals
      ensures Safe() && inBytes <= Max(limit - 1, 0) + obs + ibs - 1
      ensures code == IoError ==> input.failed || output.failed
      ensures code == Success ==> Valid()
      ensures code == Success && !interrupted ==> dataSize == 0 && Stopped(limit)
      ensures interrupted ==> signals.raised
    {
      ghost var k := 0;
      interrupted := signals.Interrupted();
      while !interrupted && !input.eof
        invariant Valid() && dataSize < obs && Reached(limit, k) && (interrupted ==> signals.raised)
        decreases |input.data| - input.pos, !input.eof
      {
        var ok := Turn(limit, k);
        if !ok {
          return IoError, false;
        }
        k := k + 1;
        interrupted := signals.Interrupted();
      }
      if interrupted {
        SafeWhenValid(limit, k);
        return Success, true;
      }
      code := Finish(limit, k);
    }

    /** copy_files from the point where both files are open; the product is the 64-bit one. */
    method CopyFiles(count: nat, signals: Signals) returns (code: ExitCode, interrupted: bool)
      requires Valid() && dataSize == 0 && inBytes == 0 && !input.eof
      modifies this`dataSize, this`inFull, this`inPartial, this`inBytes, this`outFull, this`outPartial, this`outBytes
      modifies input, output, iobuf, signals
      ensures OutputCounted() && input.Valid() && output.written <= input.data[..input.pos]
      ensures InBlocks(output.offers, obs, input.pos)
      ensures code == IoError ==> input.failed || output.failed
      ensures code == Success && !interrupted ==> Valid() && output.written == input.data[..input.pos] && inBytes == outBytes
      ensures interrupted ==> signals.raised
      ensures code == Success && !interrupted ==> input.pos >= ibs * count % TWO64 || input.ended
      ensures ibs * count < TWO64 ==> inBytes <= Max(ibs * count - 1, 0) + obs + ibs - 1
      ensures code == Success && !interrupted ==> inFull * ibs <= inBytes <= (inFull + inPartial) * ibs
      ensures outFull * obs <= outBytes <= (outFull + outPartial) * obs
      ensures code == Success && input.full ==>
                inFull == inBytes / ibs && inPartial == if inBytes % ibs == 0 then 0 else 1
      ensures code == Success && output.whole ==>
                outFull == outBytes / obs && outPartial == if outBytes % obs == 0 then 0 else 1
      ensures code == Success && !interrupted && input.full && ibs == obs && ibs * count < TWO64 ==>
                input.pos == Min(ibs * Max(count, 1), |input.data|)
      ensures code == Success && !interrupted && input.full && ibs == obs && ibs * count >= TWO64 ==>
                input.pos == Min(StopBlocks(ibs * count % TWO64, ibs) * ibs, |input.data|)
    {
      if ibs * count < TWO64 {
        LimitIs(ibs, count);
      }
      code, interrupted := CopyLoop(ibs * count % TWO64, signals);
      AccountedBounds(outFull, outPartial, obs, outBytes);
      if code == Success {
        AccountedBounds(inFull, inPartial, ibs, inBytes);
        if input.full {
          CountersAre(inFull, inPartial, ibs, inBytes);
        }
        if output.whole {
          CountersAre(outFull, outPartial, obs, outBytes);
        }
      }
    }
  }
}
