/** The local side of a transfer: a stream that is read, a file that is appended to, readfile and writefile. */
module LocalFiles {
  import opened Bytes
  import opened LineEndings

  function Outgoing(text: seq<byte>, translation: bool): seq<byte> {
    if translation then Encode(text) else text
  }

  function Incoming(chunk: seq<byte>, translation: bool): seq<byte> {
    if translation then Decode(chunk) else chunk
  }

  lemma OutgoingAppend(a: seq<byte>, b: seq<byte>, translation: bool)
    ensures Outgoing(a + b, translation) == Outgoing(a, translation) + Outgoing(b, translation)
  {
    EncodeAppend(a, b);
  }

  lemma EncodeOneMore(data: seq<byte>, from: nat, to: nat)
    requires from <= to < |data|
    ensures Encode(data[from..to + 1]) == Encode(data[from..to]) + Encode([data[to]])
    ensures Encode([data[to]]) == if data[to] == LF then [CR, LF] else [data[to]]
  {
    EncodeAppend(data[from..to], [data[to]]);
    assert data[from..to + 1] == data[from..to] + [data[to]];
    assert [data[to]][1..] == [];
  }

  /** An XFILE open for reading. */
  class XFile {
    const data: seq<byte>
    var pos: nat
    var eof: bool

    ghost predicate Valid()
      reads this
    {
      pos <= |data| && (eof ==> pos == |data|)
    }

    constructor (data: seq<byte>)
      ensures Valid() && this.data == data && pos == 0 && !eof
    {
      this.data := data;
      pos, eof := 0, false;
    }

    /** x_tseek; a place past the end reads as the end. */
    method Seek(offset: nat)
      modifies this
      ensures Valid() && !eof && pos == if offset < |data| then offset else |data|
    {
      pos, eof := if offset < |data| then offset else |data|, false;
    }

    /** x_fgetc: the next byte, or -1 and the end-of-file flag. */
    method GetC() returns (c: int)
      requires Valid()
      modifies this
      ensures Valid()
      ensures if old(pos) == |data| then c == -1 && eof && pos == old(pos)
              else c == data[old(pos)] as int && pos == old(pos) + 1 && eof == old(eof)
    {
      if eof {
        return -1;
      }
      if pos == |data| {
        eof := true;
        return -1;
      }
      c := data[pos];
      pos := pos + 1;
    }

    /** x_fread of single bytes. */
    method ReadPlain(b: array<byte>, n: nat) returns (i: nat)
      requires Valid() && n <= b.Length
      modifies this, b
      ensures Valid() && old(pos) <= pos && i <= n
      ensures b[..i] == data[old(pos)..pos]
      ensures n >= 1 ==> (i == 0 <==> old(pos) == |data|) && (i == 0 ==> eof)
      ensures i == n || pos == |data|
    {
      i := 0;
      while i < n
        invariant Valid() && i <= n && pos == old(pos) + i && eof == old(eof)
        invariant b[..i] == data[old(pos)..pos]
      {
        var c := GetC();
        if c == -1 {
          return;
        }
        b[i] := c;
        i := i + 1;
      }
    }

    /** Stores one byte, with a CR before it if it is an LF. */
    static method PutByte(b: array<byte>, i: nat, c: byte) returns (next: nat)
      requires i + 2 <= b.Length
      modifies b
      ensures next <= i + 2 && next > i
      ensures b[..next] == old(b[..i]) + Encode([c])
    {
      next := i;
      assert [c][1..] == [];
      if c == LF {
        b[next] := CR;
        next := next + 1;
      }
      b[next] := c;
      next := next + 1;
    }

    method ReadTranslated(b: array<byte>, n: nat) returns (i: nat)
      requires Valid() && n <= b.Length
      modifies this, b
      ensures Valid() && old(pos) <= pos && i <= n
      ensures b[..i] == Encode(data[old(pos)..pos])
      ensures if n < 2 then i == 0 && eof == old(eof) else (i == 0 <==> old(pos) == |data|) && (i == 0 ==> eof)
      ensures i >= n - 1 || pos == |data|
    {
      i := 0;
      while i < n - 1
        invariant Valid() && i <= n && old(pos) <= pos && (i == 0 <==> pos == old(pos)) && eof == old(eof)
        invariant n < 2 ==> i == 0
        invariant b[..i] == Encode(data[old(pos)..pos])
        decreases |data| - pos
      {
        var c := GetC();
        if c == -1 {
          return;
        }
        EncodeOneMore(data, old(pos), pos - 1);
        i := PutByte(b, i, c);
      }
    }

    /** readfile: fills at most n bytes of b, with LF to CR LF translation if asked for. */
    method ReadFile(b: array<byte>, n: nat, translation: bool) returns (i: nat)
      requires Valid() && n <= b.Length
      modifies this, b
      ensures Valid() && old(pos) <= pos && i <= n
      ensures b[..i] == Outgoing(data[old(pos)..pos], translation)
      ensures n >= 2 || (n >= 1 && !translation) ==> (i == 0 <==> old(pos) == |data|) && (i == 0 ==> eof)
      ensures n < 2 && translation ==> i == 0 && eof == old(eof)
      ensures i == n || (translation && i == n - 1) || pos == |data|
    {
      if translation {
        i := ReadTranslated(b, n);
      } else {
        i := ReadPlain(b, n);
      }
    }
  }

  /** Where the bytes begin that are not written when writefile stops at i: before the CR that it had skipped already. */
  function Unwritten(bytes: seq<byte>, i: nat): nat
    requires i < |bytes|
  {
    if i > 0 && bytes[i - 1] == CR && bytes[i] == LF then i - 1 else i
  }

  lemma {:induction false} DecodeOneMore(bytes: seq<byte>, i: nat, skip: bool, done: seq<byte>)
    requires i < |bytes| && skip == (bytes[i] == CR && i < |bytes| - 1 && bytes[i + 1] == LF)
    ensures var k := if skip then i + 1 else i; done + Decode(bytes[i..]) == done + [bytes[k]] + Decode(bytes[k + 1..])
  {
    var k := if skip then i + 1 else i;
    var left := bytes[i..];
    assert left[k + 1 - i..] == bytes[k + 1..];
    assert Decode(left) == [bytes[k]] + Decode(bytes[k + 1..]);
  }

  /** A local file open for writing at its end. Any write may fail or be short. */
  class LocalFile {
    var data: seq<byte>
    ghost var short: bool  // some write did not take all it was given

    constructor (data: seq<byte>)
      ensures this.data == data && !short
    {
      this.data, short := data, false;
    }

    method Write(b: array<byte>, from: nat, n: nat) returns (k: int)
      requires from + n <= b.Length
      modifies this
      ensures -1 <= k <= n && short == (old(short) || k < n)
      ensures data == old(data) + b[from..from + (if k < 0 then 0 else k)]
    {
      k :| -1 <= k <= n;
      short := short || k < n;
      if k > 0 {
        data := data + b[from..from + k];
      }
    }

    /** A write of one byte. */
    method WriteByte(b: array<byte>, at: nat) returns (ok: bool)
      requires at < b.Length
      modifies this
      ensures short == (old(short) || !ok) && data == if ok then old(data) + [b[at]] else old(data)
    {
      var k := Write(b, at, 1);
      ok := k == 1;
      assert b[at..at + 1] == [b[at]] && b[at..at] == [];
    }

    /** Writes the next byte, or the LF of the next CR LF. */
    method TakeOne(b: array<byte>, n: nat, i: nat, ghost bytes: seq<byte>) returns (ok: bool, next: nat)
      requires i < n <= b.Length && bytes == b[..n] && Unwritten(bytes, i) == i
      modifies this
      ensures i <= next <= n && old(data) <= data
      ensures if ok then next > i && short == old(short) && data + Decode(bytes[next..]) == old(data) + Decode(bytes[i..])
              else next < n && short && data == old(data) && Unwritten(bytes, next) == i
      ensures ok && next < n ==> Unwritten(bytes, next) == next
    {
      var skip := b[i] == CR && i < n - 1 && b[i + 1] == LF;
      DecodeOneMore(bytes, i, skip, data);
      next := if skip then i + 1 else i;
      ok := WriteByte(b, next);
      if ok {
        next := next + 1;
      }
    }

    /** writefile: the number of bytes taken from the buffer; all n of them when every write works. */
    method WriteFile(b: array<byte>, n: nat, translation: bool) returns (i: int)
      requires n <= b.Length
      modifies this
      ensures -1 <= i <= n && short == (old(short) || i < n)
      ensures i == n ==> data == old(data) + Incoming(b[..n], translation)
      ensures old(data) <= data && (!translation ==> data == old(data) + b[..if i < 0 then 0 else i])
      ensures translation && i < n ==> i >= 0 && data + Decode(b[Unwritten(b[..n], i)..n]) == old(data) + Decode(b[..n])
    {
      if !translation {
        i := Write(b, 0, n);
        return;
      }
      i := 0;
      ghost var bytes := b[..n];
      while i < n
        invariant 0 <= i <= n && short == old(short) && old(data) <= data
        invariant data + Decode(bytes[i..]) == old(data) + Decode(bytes) && (i < n ==> Unwritten(bytes, i) == i)
        decreases n - i
      {
        var ok;
        ok, i := TakeOne(b, n, i, bytes);
        if !ok {
          assert bytes[Unwritten(bytes, i)..] == b[Unwritten(bytes, i)..n];
          return;
        }
      }
    }
  }
}
