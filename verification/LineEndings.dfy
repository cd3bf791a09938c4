/** CR/LF translation of smbclient transfers: readfile, writefile, and what chunking does to the round trip. */
module LineEndings {
  import opened Bytes

  const CR: byte := 13
  const LF: byte := 10

  /** Every LF becomes CR LF. */
  function Encode(text: seq<byte>): seq<byte> {
    if text == [] then [] else (if text[0] == LF then [CR, LF] else [text[0]]) + Encode(text[1..])
  }

  /** Every CR LF becomes LF; a CR followed by anything else, or by nothing, stays. */
  function Decode(chunk: seq<byte>): seq<byte> {
    if chunk == [] then []
    else if |chunk| >= 2 && chunk[0] == CR && chunk[1] == LF then [LF] + Decode(chunk[2..])
    else [chunk[0]] + Decode(chunk[1..])
  }

  lemma {:induction false} EncodeAppend(a: seq<byte>, b: seq<byte>)
    ensures Encode(a + b) == Encode(a) + Encode(b)
  {
    if a == [] {
      assert a + b == b;
    } else {
      assert (a + b)[1..] == a[1..] + b;
      EncodeAppend(a[1..], b);
    }
  }

  /** Encoding never shortens a text, and leaves exactly the texts without LF as they are. */
  lemma {:induction false} EncodeLength(text: seq<byte>)
    ensures |Encode(text)| >= |text|
    ensures |Encode(text)| == |text| <==> LF !in text
    ensures LF !in text ==> Encode(text) == text
  {
    if text != [] {
      EncodeLength(text[1..]);
      assert text == [text[0]] + text[1..];
    }
  }

  lemma SameTail(a: seq<byte>, b: seq<byte>, t: seq<byte>)
    ensures a + t == b + t <==> a == b
  {
    if a + t == b + t {
      assert |a| == |b|;
      assert a == (a + t)[..|a|] && b == (b + t)[..|b|];
    }
  }

  lemma {:induction false} EncodedAsItIs(kept: seq<byte>, head: seq<byte>)
    requires |kept| == |head|
    ensures kept == Encode(head) <==> kept == head && LF !in kept
  {
    EncodeLength(head);
  }

  /** The head of an encoded text, replaced by something as long as the text that was encoded. */
  lemma {:induction false} EncodedHead(kept: seq<byte>, text: seq<byte>)
    requires |kept| <= |text|
    ensures kept + Encode(text[|kept|..]) == Encode(text) <==> kept <= text && LF !in kept
  {
    var n := |kept|;
    assert Encode(text) == Encode(text[..n]) + Encode(text[n..]) by {
      assert text[..n] + text[n..] == text;
      EncodeAppend(text[..n], text[n..]);
    }
    SameTail(kept, Encode(text[..n]), Encode(text[n..]));
    EncodedAsItIs(kept, text[..n]);
  }

  function Concat(cs: seq<seq<byte>>): seq<byte> {
    if cs == [] then [] else cs[0] + Concat(cs[1..])
  }

  lemma {:induction false} ConcatAppend(cs: seq<seq<byte>>, c: seq<byte>)
    ensures Concat(cs + [c]) == Concat(cs) + c
  {
    if cs == [] {
      assert [c][1..] == [];
    } else {
      assert (cs + [c])[1..] == cs[1..] + [c];
      ConcatAppend(cs[1..], c);
    }
  }

  /** The chunks decoded one by one. */
  function DecodeAll(cs: seq<seq<byte>>): seq<byte> {
    if cs == [] then [] else Decode(cs[0]) + DecodeAll(cs[1..])
  }

  lemma {:induction false} DecodeAllAppend(cs: seq<seq<byte>>, c: seq<byte>)
    ensures DecodeAll(cs + [c]) == DecodeAll(cs) + Decode(c)
  {
    if cs == [] {
      assert [c][1..] == [];
    } else {
      assert (cs + [c])[1..] == cs[1..] + [c];
      DecodeAllAppend(cs[1..], c);
    }
  }

  // ----- chunk boundaries -----

  function Offset(cs: seq<seq<byte>>, j: nat): nat
    requires j <= |cs|
  {
    if j == 0 then 0 else Offset(cs, j - 1) + |cs[j - 1]|
  }

  ghost predicate IsBoundary(cs: seq<seq<byte>>, k: nat) {
    exists j :: 0 <= j <= |cs| && Offset(cs, j) == k
  }

  lemma {:induction false} OffsetGrows(cs: seq<seq<byte>>, i: nat, j: nat)
    requires i <= j <= |cs|
    ensures Offset(cs, i) <= Offset(cs, j)
    decreases j
  {
    if i < j {
      OffsetGrows(cs, i, j - 1);
    }
  }

  lemma InsideChunk(cs: seq<seq<byte>>, j: nat, k: nat)
    requires j < |cs| && Offset(cs, j) < k < Offset(cs, j + 1)
    ensures !IsBoundary(cs, k)
  {
    forall i | 0 <= i <= |cs|
      ensures Offset(cs, i) != k
    {
      if i <= j {
        OffsetGrows(cs, i, j);
      } else {
        OffsetGrows(cs, j + 1, i);
      }
    }
  }

  /**
   The text as decoding gives it back when its encoding was cut at the chunk boundaries: an LF whose CR LF
   was split, which is where a boundary lies one byte into it, comes back with a CR before it.
   */
  ghost function WithStrayCRs(text: seq<byte>, cs: seq<seq<byte>>, at: nat): seq<byte> {
    if text == [] then []
    else if text[0] != LF then [text[0]] + WithStrayCRs(text[1..], cs, at + 1)
    else (if IsBoundary(cs, at + 1) then [CR, LF] else [LF]) + WithStrayCRs(text[1..], cs, at + 2)
  }

  /** How many CR LF pairs of the encoding are split by a chunk boundary. */
  ghost function Splits(text: seq<byte>, cs: seq<seq<byte>>, at: nat): nat {
    if text == [] then 0
    else if text[0] != LF then Splits(text[1..], cs, at + 1)
    else (if IsBoundary(cs, at + 1) then 1 else 0) + Splits(text[1..], cs, at + 2)
  }

  lemma {:induction false} OneStrayPerSplit(text: seq<byte>, cs: seq<seq<byte>>, at: nat)
    ensures |WithStrayCRs(text, cs, at)| == |text| + Splits(text, cs, at)
    ensures Splits(text, cs, at) == 0 ==> WithStrayCRs(text, cs, at) == text
    decreases |text|
  {
    if text != [] {
      OneStrayPerSplit(text[1..], cs, if text[0] == LF then at + 2 else at + 1);
    }
  }

  // ----- decoding a chunked encoding -----

  lemma Prepend(h: seq<byte>, a: seq<byte>, b: seq<byte>)
    ensures h + a + b == h + (a + b)
  {
  }

  /** How the first byte, or pair of bytes, of what is left of a chunk decodes; after is what follows the chunk, decoded. */
  lemma {:induction false} PlainStep(chunk: seq<byte>, rest: seq<byte>, text: seq<byte>, after: seq<byte>)
    requires chunk != [] && chunk + rest == Encode(text) && text[0] != LF
    ensures chunk[1..] + rest == Encode(text[1..])
    ensures Decode(chunk) + after == [text[0]] + (Decode(chunk[1..]) + after)
  {
    var more := Encode(text[1..]);
    assert Encode(text) == [text[0]] + more;
    assert chunk[1..] + rest == (chunk + rest)[1..] == more;
    assert more != [] ==> more[0] != LF;
    assert |chunk| >= 2 ==> chunk[1] == (chunk[1..] + rest)[0];
    Prepend([text[0]], Decode(chunk[1..]), after);
  }

  lemma {:induction false} PairStep(chunk: seq<byte>, rest: seq<byte>, text: seq<byte>, after: seq<byte>)
    requires |chunk| >= 2 && chunk + rest == Encode(text) && text[0] == LF
    ensures chunk[2..] + rest == Encode(text[1..])
    ensures Decode(chunk) + after == [LF] + (Decode(chunk[2..]) + after)
  {
    var more := Encode(text[1..]);
    assert Encode(text) == [CR, LF] + more;
    assert chunk[0] == (chunk + rest)[0] == CR && chunk[1] == (chunk + rest)[1] == LF;
    assert ([CR, LF] + more)[2..] == more;
    assert (chunk + rest)[2..] == chunk[2..] + rest;
    Prepend([LF], Decode(chunk[2..]), after);
  }

  lemma {:induction false} SplitStep(chunk: seq<byte>, rest: seq<byte>, text: seq<byte>, after: seq<byte>)
    requires |chunk| == 1 && chunk + rest == Encode(text) && text[0] == LF
    ensures rest == [LF] + Encode(text[1..])
    ensures Decode(chunk) + ([LF] + after) == [CR, LF] + after
  {
    assert rest == (chunk + rest)[1..];
    assert chunk[0] == (chunk + rest)[0];
    Prepend([CR], [LF], after);
  }

  lemma {:induction false} LineFeedStep(chunk: seq<byte>, rest: seq<byte>, text: seq<byte>, after: seq<byte>)
    requires chunk != [] && chunk + rest == [LF] + Encode(text)
    ensures chunk[1..] + rest == Encode(text)
    ensures Decode(chunk) + after == [LF] + (Decode(chunk[1..]) + after)
  {
    assert chunk[0] == (chunk + rest)[0];
    assert chunk[1..] + rest == (chunk + rest)[1..];
    Prepend([LF], Decode(chunk[1..]), after);
  }

  /** The case where chunk j is used up. */
  lemma {:induction false} DecodeNext(cs: seq<seq<byte>>, j: nat, text: seq<byte>)
    requires j < |cs| && Concat(cs[j + 1..]) == Encode(text)
    ensures DecodeAll(cs[j + 1..]) == WithStrayCRs(text, cs, Offset(cs, j + 1))
    decreases |cs| - j, 0, 0
  {
    if j + 1 == |cs| {
      assert cs[j + 1..] == [];
      assert text == [];
    } else {
      assert cs[j + 1..][1..] == cs[j + 2..];
      assert cs[j + 1][0..] == cs[j + 1];
      DecodeFrom(cs, j + 1, 0, text);
    }
  }

  /** Decoding from byte k of chunk j on. */
  lemma {:induction false} DecodeFrom(cs: seq<seq<byte>>, j: nat, k: nat, text: seq<byte>)
    requires j < |cs| && k <= |cs[j]| && cs[j][k..] + Concat(cs[j + 1..]) == Encode(text)
    ensures Decode(cs[j][k..]) + DecodeAll(cs[j + 1..]) == WithStrayCRs(text, cs, Offset(cs, j) + k)
    decreases |cs| - j, |cs[j]| - k, 1
  {
    var chunk, rest, at := cs[j][k..], Concat(cs[j + 1..]), Offset(cs, j) + k;
    var after := DecodeAll(cs[j + 1..]);
    if chunk == [] {
      DecodeNext(cs, j, text);
    } else if text[0] != LF {
      PlainStep(chunk, rest, text, after);
      assert chunk[1..] == cs[j][k + 1..];
      DecodeFrom(cs, j, k + 1, text[1..]);
    } else if |chunk| >= 2 {
      PairStep(chunk, rest, text, after);
      InsideChunk(cs, j, at + 1);
      assert chunk[2..] == cs[j][k + 2..];
      DecodeFrom(cs, j, k + 2, text[1..]);
    } else {
      SplitStep(chunk, rest, text, WithStrayCRs(text[1..], cs, at + 2));
      assert Offset(cs, j + 1) == at + 1;
      DecodeSplit(cs, j + 1, text[1..]);
    }
  }

  /** The chunks from j on begin with the LF of a split CR LF, which decodes to itself. */
  lemma {:induction false} DecodeSplit(cs: seq<seq<byte>>, j: nat, text: seq<byte>)
    requires j <= |cs| && Concat(cs[j..]) == [LF] + Encode(text)
    ensures DecodeAll(cs[j..]) == [LF] + WithStrayCRs(text, cs, Offset(cs, j) + 1)
    decreases |cs| - j, if j < |cs| then |cs[j]| else 0, 2
  {
    assert cs[j..] != [];
    assert cs[j..][1..] == cs[j + 1..];
    var chunk := cs[j];
    if chunk == [] {
      assert Concat(cs[j..]) == Concat(cs[j + 1..]);
      DecodeSplit(cs, j + 1, text);
    } else {
      LineFeedStep(chunk, Concat(cs[j + 1..]), text, DecodeAll(cs[j + 1..]));
      DecodeFrom(cs, j, 1, text);
    }
  }

  /** Any chunking of an encoded text decodes to the text, with one CR more for each CR LF that a boundary splits. */
  lemma ChunkedRoundTrip(text: seq<byte>, cs: seq<seq<byte>>)
    requires Concat(cs) == Encode(text)
    ensures DecodeAll(cs) == WithStrayCRs(text, cs, 0)
    ensures |DecodeAll(cs)| == |text| + Splits(text, cs, 0)
    ensures Splits(text, cs, 0) == 0 <==> DecodeAll(cs) == text
  {
    OneStrayPerSplit(text, cs, 0);
    if cs == [] {
      assert text == [];
    } else {
      assert cs[0][0..] == cs[0];
      DecodeFrom(cs, 0, 0, text);
    }
  }

  // ----- chunks of one size -----

  /** Every chunk but the last is as long as the buffer. */
  predicate Filled(cs: seq<seq<byte>>, bufsize: nat) {
    && (forall i :: 0 <= i < |cs| ==> 0 < |cs[i]| <= bufsize)
    && (forall i :: 0 <= i < |cs| - 1 ==> |cs[i]| == bufsize)
  }

  /** How many CR LF pairs of the encoding lie across a multiple of the buffer size. */
  function Straddling(text: seq<byte>, bufsize: nat, at: nat): nat
    requires bufsize > 0
  {
    if text == [] then 0
    else if text[0] != LF then Straddling(text[1..], bufsize, at + 1)
    else (if (at + 1) % bufsize == 0 then 1 else 0) + Straddling(text[1..], bufsize, at + 2)
  }

  predicate StraddlesAt(text: seq<byte>, bufsize: nat, at: nat, i: nat)
    requires bufsize > 0 && i < |text|
  {
    text[i] == LF && (at + |Encode(text[..i])| + 1) % bufsize == 0
  }

  /** Some LF of the text is encoded to a CR LF that lies across a multiple of the buffer size. */
  predicate Straddles(text: seq<byte>, bufsize: nat)
    requires bufsize > 0
  {
    exists i :: 0 <= i < |text| && StraddlesAt(text, bufsize, 0, i)
  }

  lemma {:induction false} StraddlesLater(text: seq<byte>, bufsize: nat, at: nat)
    requires bufsize > 0 && text != []
    ensures var rest, next := text[1..], if text[0] == LF then at + 2 else at + 1;
            && (forall i :: 0 <= i < |rest| && StraddlesAt(rest, bufsize, next, i) ==> StraddlesAt(text, bufsize, at, i + 1))
            && (forall i :: 0 < i < |text| && StraddlesAt(text, bufsize, at, i) ==> StraddlesAt(rest, bufsize, next, i - 1))
  {
    var rest, next := text[1..], if text[0] == LF then at + 2 else at + 1;
    forall i | 0 < i < |text|
      ensures StraddlesAt(text, bufsize, at, i) <==> StraddlesAt(rest, bufsize, next, i - 1)
    {
      assert text[..i][1..] == rest[..i - 1] && text[..i][0] == text[0];
      assert at + |Encode(text[..i])| == next + |Encode(rest[..i - 1])|;
    }
  }

  lemma {:induction false} StraddlingCounts(text: seq<byte>, bufsize: nat, at: nat)
    requires bufsize > 0
    ensures Straddling(text, bufsize, at) > 0 <==> exists i :: 0 <= i < |text| && StraddlesAt(text, bufsize, at, i)
    decreases |text|
  {
    if text != [] {
      var next := if text[0] == LF then at + 2 else at + 1;
      StraddlingCounts(text[1..], bufsize, next);
      StraddlesLater(text, bufsize, at);
      assert StraddlesAt(text, bufsize, at, 0) <==> text[0] == LF && (at + 1) % bufsize == 0 by {
        assert text[..0] == [];
      }
    }
  }

  lemma {:induction false} OffsetsOfFilled(cs: seq<seq<byte>>, bufsize: nat, j: nat)
    requires Filled(cs, bufsize) && j <= |cs|
    ensures j < |cs| ==> Offset(cs, j) == j * bufsize
    ensures j > 0 ==> (j - 1) * bufsize < Offset(cs, j) <= j * bufsize
    decreases j
  {
    if j > 0 {
      OffsetsOfFilled(cs, bufsize, j - 1);
      assert j * bufsize == (j - 1) * bufsize + bufsize;
    }
  }

  lemma {:induction false} OffsetIsLength(cs: seq<seq<byte>>, j: nat)
    requires j <= |cs|
    ensures Offset(cs, j) == |Concat(cs[..j])|
    decreases j
  {
    if j > 0 {
      OffsetIsLength(cs, j - 1);
      assert cs[..j] == cs[..j - 1] + [cs[j - 1]];
      ConcatAppend(cs[..j - 1], cs[j - 1]);
    }
  }

  lemma FactorOrder(i: nat, j: nat, b: nat)
    ensures i <= j ==> i * b <= j * b
  {
    assert j * b == i * b + (j - i) * b;
  }

  lemma Multiple(j: nat, b: nat)
    requires b > 0
    ensures j * b % b == 0
  {
    var q, r := j * b / b, j * b % b;
    assert j * b == q * b + r;
    if j < q {
      FactorOrder(j + 1, q, b);
    } else if j > q {
      FactorOrder(q + 1, j, b);
    }
  }

  lemma BoundaryDivides(cs: seq<seq<byte>>, bufsize: nat, k: nat)
    requires bufsize > 0 && Filled(cs, bufsize) && IsBoundary(cs, k) && k < Offset(cs, |cs|)
    ensures k % bufsize == 0
  {
    var j :| 0 <= j <= |cs| && Offset(cs, j) == k;
    OffsetsOfFilled(cs, bufsize, j);
    Multiple(j, bufsize);
  }

  lemma Factor(k: nat, b: nat) returns (j: nat)
    requires b > 0 && k % b == 0
    ensures k == j * b
  {
    j := k / b;
  }

  lemma SmallerFactor(i: nat, j: nat, b: nat)
    requires i * b < j * b
    ensures i < j
  {
    FactorOrder(j, i, b);
  }

  lemma MultipleIsBoundary(cs: seq<seq<byte>>, bufsize: nat, k: nat)
    requires bufsize > 0 && Filled(cs, bufsize) && k % bufsize == 0 && k < Offset(cs, |cs|)
    ensures IsBoundary(cs, k)
  {
    var j := Factor(k, bufsize);
    OffsetsOfFilled(cs, bufsize, |cs|);
    SmallerFactor(j, |cs|, bufsize);
    OffsetsOfFilled(cs, bufsize, j);
  }

  /** Inside the data, the boundaries of filled chunks are the multiples of the buffer size. */
  lemma BoundaryIs(cs: seq<seq<byte>>, bufsize: nat, k: nat)
    requires bufsize > 0 && Filled(cs, bufsize) && 0 < k < |Concat(cs)|
    ensures IsBoundary(cs, k) <==> k % bufsize == 0
  {
    assert Offset(cs, |cs|) == |Concat(cs)| by {
      OffsetIsLength(cs, |cs|);
      assert cs[..|cs|] == cs;
    }
    if IsBoundary(cs, k) {
      BoundaryDivides(cs, bufsize, k);
    } else if k % bufsize == 0 {
      MultipleIsBoundary(cs, bufsize, k);
    }
  }

  lemma {:induction false} SplitsOfFilled(text: seq<byte>, cs: seq<seq<byte>>, bufsize: nat, at: nat)
    requires bufsize > 0 && Filled(cs, bufsize) && at + |Encode(text)| == |Concat(cs)|
    ensures Splits(text, cs, at) == Straddling(text, bufsize, at)
    decreases |text|
  {
    if text != [] {
      if text[0] == LF {
        BoundaryIs(cs, bufsize, at + 1);
        SplitsOfFilled(text[1..], cs, bufsize, at + 2);
      } else {
        SplitsOfFilled(text[1..], cs, bufsize, at + 1);
      }
    }
  }

  /** With filled chunks, the text comes back if and only if no CR LF straddles a multiple of the buffer size. */
  lemma FilledRoundTrip(text: seq<byte>, cs: seq<seq<byte>>, bufsize: nat)
    requires bufsize > 0 && Filled(cs, bufsize) && Concat(cs) == Encode(text)
    ensures |DecodeAll(cs)| == |text| + Straddling(text, bufsize, 0)
    ensures DecodeAll(cs) == text <==> !Straddles(text, bufsize)
  {
    ChunkedRoundTrip(text, cs);
    SplitsOfFilled(text, cs, bufsize, 0);
    StraddlingCounts(text, bufsize, 0);
  }

  lemma OneByte(b: byte)
    ensures Encode([b]) == (if b == LF then [CR, LF] else [b]) && Decode([b]) == [b] && Encode([]) == []
  {
    assert [b][1..] == [];
  }

  lemma TwoChunks(x: seq<byte>, y: seq<byte>)
    ensures Concat([x, y]) == x + y && DecodeAll([x, y]) == Decode(x) + Decode(y)
  {
    assert [] + [x] == [x] && [x] + [y] == [x, y];
    ConcatAppend([], x);
    ConcatAppend([x], y);
    DecodeAllAppend([], x);
    DecodeAllAppend([x], y);
  }

  /** A letter and an LF, sent in buffers of two bytes, come back with a CR between them. */
  lemma StraddlingAddsCR()
    ensures var text, cs := [97, LF], [[97, CR], [LF]];
            && Straddles(text, 2) && Filled(cs, 2) && Concat(cs) == Encode(text)
            && DecodeAll(cs) == [97, CR, LF]
  {
    var a: seq<byte>, lf: seq<byte>, cr: seq<byte> := [97], [LF], [CR];
    OneByte(97);
    OneByte(LF);
    OneByte(CR);
    assert Encode(a + lf) == [97, CR, LF] by {
      EncodeAppend(a, lf);
    }
    assert Straddles(a + lf, 2) by {
      assert (a + lf)[..1] == a;
      assert StraddlesAt(a + lf, 2, 0, 1);
    }
    var first := a + cr;
    assert Decode(first) == [97, CR] by {
      assert first[1..] == cr;
    }
    assert Concat([first, lf]) == [97, CR, LF] && DecodeAll([first, lf]) == [97, CR, LF] by {
      TwoChunks(first, lf);
    }
    assert a + lf == [97, LF] && [first, lf] == [[97, CR], [LF]];
  }
}
