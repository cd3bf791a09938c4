/**
 The do_list_queue of smbclient: a FIFO of strings packed, NUL-separated, into one growing buffer
 whose live part slides back to the front when it has moved past the middle.
 */
module ListQueue {
  import opened CStrings

  const INITIAL_SIZE: nat := 1024

  /** The live bytes of a FIFO: every string with its terminator, oldest first. */
  function Pack(items: seq<string>): seq<char> {
    if items == [] then [] else items[0] + [NUL] + Pack(items[1..])
  }

  lemma {:induction false} PackAppend(items: seq<string>, s: string)
    ensures Pack(items + [s]) == Pack(items) + s + [NUL]
  {
    if items == [] {
      assert [s][1..] == [];
    } else {
      assert (items + [s])[1..] == items[1..] + [s];
      PackAppend(items[1..], s);
    }
  }

  predicate Strings(items: seq<string>) {
    forall i :: 0 <= i < |items| ==> NUL !in items[i]
  }

  function LabelOf(mask: string): string {
    if |mask| >= 2 && mask[|mask| - 2..] == "\\*" then mask[..|mask| - 2] else mask
  }

  lemma LabelIs(mask: string)
    ensures var n := |mask|;
            LabelOf(mask) == if n >= 2 && mask[n - 1] == '*' && mask[n - 2] == '\\' then mask[..n - 2] else mask
  {
    if |mask| >= 2 {
      assert mask[|mask| - 2..][0] == mask[|mask| - 2] && mask[|mask| - 2..][1] == mask[|mask| - 1];
    }
  }

  /** Where the first string of a packed FIFO, its terminator and the rest lie. */
  lemma HeadIn(b: seq<char>, start: nat, end: nat, items: seq<string>)
    requires start <= end <= |b| && b[start..end] == Pack(items) && items != [] && NUL !in items[0]
    ensures var n := |items[0]|;
            && start + n < end && b[start..start + n] == items[0] && b[start + n] == NUL
            && b[start + n + 1..end] == Pack(items[1..])
            && forall i :: start <= i < start + n ==> b[i] != NUL
  {
    var h, live, n := items[0], b[start..end], |items[0]|;
    assert live == h + [NUL] + Pack(items[1..]);
    assert b[start..start + n] == live[..n] == h;
    assert b[start + n] == live[n];
    assert b[start + n + 1..end] == live[n + 1..];
    assert forall i :: start <= i < start + n ==> b[i] == h[i - start];
  }

  datatype Op = Add(entry: string) | Remove

  /** What is queued, where the live bytes begin, how large the buffer is, and the entry most recently placed at offset 0. */
  datatype Layout = Layout(items: seq<string>, start: nat, size: nat, front: string)

  /** The size after doubling until it holds end bytes. */
  function Doubled(size: nat, end: nat): (r: nat)
    requires size > 0
    ensures r >= end && (r == size || 2 * size <= r < 2 * end)
    decreases if end > size then end - size else 0
  {
    if end <= size then size else Doubled(2 * size, end)
  }

  const EMPTY: Layout := Layout([], 0, INITIAL_SIZE, "")

  /** What one operation makes of a layout. */
  function Place(l: Layout, op: Op): (r: Layout)
    requires op.Add? ==> l.size > 0
    ensures l.size > 0 ==> r.size > 0
  {
    match op
    case Add(s) =>
      Layout(l.items + [s], l.start, Doubled(l.size, l.start + |Pack(l.items)| + |s| + 1), if l.items == [] then s else l.front)
    case Remove =>
      if l.items == [] then l
      else
        var rest, at := l.items[1..], l.start + |l.items[0]| + 1;
        if rest == [] then l.(items := [], start := 0)
        else if at > l.size / 2 then l.(items := rest, start := 0, front := rest[0])
        else l.(items := rest, start := at)
  }

  function Fifo(ops: seq<Op>): seq<string> {
    if ops == [] then []
    else
      var before := Fifo(ops[..|ops| - 1]);
      match ops[|ops| - 1]
      case Add(s) => before + [s]
      case Remove => if before == [] then [] else before[1..]
  }

  /** The layout after a history of operations. */
  function LayoutOf(ops: seq<Op>): (r: Layout)
    ensures r.size > 0
  {
    if ops == [] then EMPTY else Place(LayoutOf(ops[..|ops| - 1]), ops[|ops| - 1])
  }

  lemma {:induction false} LayoutIsFifo(ops: seq<Op>)
    ensures LayoutOf(ops).items == Fifo(ops)
  {
    if ops != [] {
      LayoutIsFifo(ops[..|ops| - 1]);
    }
  }

  /** The largest number of bytes, terminators included, that the FIFO held at any time. */
  function Peak(ops: seq<Op>): nat {
    if ops == [] then 0
    else
      var before, now := Peak(ops[..|ops| - 1]), |Pack(Fifo(ops))|;
      if now > before then now else before
  }

  method Step(q: Queue, ghost ops: seq<Op>, op: Op)
    requires After(q, ops) && (op.Add? ==> NUL !in op.entry)
    modifies q, q.buf
    ensures After(q, ops + [op]) && (q.buf == old(q.buf) || fresh(q.buf))
  {
    ghost var all := ops + [op];
    assert all[..|ops|] == ops;
    assert |Pack(q.items)| <= q.peak;
    match op {
      case Add(s) => q.Add(s);
      case Remove => q.RemoveHead();
    }
    LayoutIsFifo(all);
  }

  predicate NoBlank(ops: seq<Op>) {
    forall i :: 0 <= i < |ops| ==> ops[i].Add? ==> ops[i].entry != ""
  }

  /** The test looks at the entry at offset 0, which need not be the head. */
  predicate SaysEmpty(l: Layout) {
    l.items == [] || l.front == ""
  }

  /** What the test and the head say after these operations; without blank entries the test is exact. */
  ghost predicate Observed(ops: seq<Op>, e: bool, head: string) {
    && (e <==> SaysEmpty(LayoutOf(ops)))
    && (NoBlank(ops) ==> e == (Fifo(ops) == []))
    && (Fifo(ops) != [] ==> head == Fifo(ops)[0])
  }

  /** Without blank entries, no blank entry is queued or comes to offset 0. */
  lemma {:induction false} NothingBlank(ops: seq<Op>)
    requires NoBlank(ops)
    ensures "" !in LayoutOf(ops).items && (LayoutOf(ops).items != [] ==> LayoutOf(ops).front != "")
  {
    if ops != [] {
      NothingBlank(ops[..|ops| - 1]);
    }
  }

  method Observe(q: Queue, ghost ops: seq<Op>) returns (e: bool, head: string)
    requires After(q, ops)
    ensures Observed(ops, e, head)
  {
    LayoutIsFifo(ops);
    if NoBlank(ops) {
      NothingBlank(ops);
    }
    e := q.Empty();
    head := "";
    if q.start < q.end {
      head := q.Head();
    }
  }

  method Turn(q: Queue, ghost ops: seq<Op>, op: Op) returns (e: bool, head: string)
    requires After(q, ops) && (op.Add? ==> NUL !in op.entry)
    modifies q, q.buf
    ensures After(q, ops + [op]) && (q.buf == old(q.buf) || fresh(q.buf))
    ensures Observed(ops + [op], e, head)
  {
    Step(q, ops, op);
    e, head := Observe(q, ops + [op]);
  }

  ghost predicate AllObserved(ops: seq<Op>, emptiness: seq<bool>, heads: seq<string>)
    requires |emptiness| == |heads| <= |ops|
  {
    forall i :: 0 <= i < |heads| ==> Observed(ops[..i + 1], emptiness[i], heads[i])
  }

  lemma ObservedMore(ops: seq<Op>, emptiness: seq<bool>, heads: seq<string>, e: bool, head: string)
    requires |emptiness| == |heads| < |ops| && AllObserved(ops, emptiness, heads) && Observed(ops[..|heads| + 1], e, head)
    ensures AllObserved(ops, emptiness + [e], heads + [head])
  {
  }

  /**
   Any sequence of additions and removals after init: in every state passed, contents and head are those of a FIFO,
   what the emptiness test says is a function of the history, and exact without blank entries; the data starts in
   the first half, and the buffer is at most four times the peak.
   */
  method Run(ops: seq<Op>) returns (q: Queue, emptiness: seq<bool>, heads: seq<string>)
    requires forall i :: 0 <= i < |ops| ==> ops[i].Add? ==> NUL !in ops[i].entry
    ensures fresh(q) && q.Valid() && q.items == Fifo(ops) && q.Now() == LayoutOf(ops)
    ensures q.start <= q.size / 2 && (q.size == INITIAL_SIZE || q.size < 4 * Peak(ops))
    ensures |emptiness| == |heads| == |ops| && AllObserved(ops, emptiness, heads)
  {
    q := new Queue();
    q.Init();
    emptiness, heads := [], [];
    for k := 0 to |ops|
      invariant fresh(q) && After(q, ops[..k]) && fresh(q.buf)
      invariant |emptiness| == |heads| == k && AllObserved(ops, emptiness, heads)
    {
      assert ops[..k + 1] == ops[..k] + [ops[k]];
      var e, h := Turn(q, ops[..k], ops[k]);
      ObservedMore(ops, emptiness, heads, e, h);
      emptiness, heads := emptiness + [e], heads + [h];
    }
    assert ops[..|ops|] == ops;
    LayoutIsFifo(ops);
  }

  lemma PackedWith(items: seq<string>, entry: string)
    requires Strings(items) && NUL !in entry
    ensures Pack(items + [entry]) == Pack(items) + entry + [NUL] && Strings(items + [entry])
    ensures items == [] <==> Pack(items) == []
  {
    PackAppend(items, entry);
  }

  class Queue {
    var buf: array?<char>
    var size: nat
    var start: nat
    var end: nat
    ghost var items: seq<string>  // the FIFO this object stands for
    ghost var front: string       // the entry most recently placed at offset 0
    ghost var peak: nat           // the largest number of live bytes ever held

    ghost predicate Allocated()
      reads this
    {
      && buf != null && buf.Length == size
      && size % 2 == 0 && size >= INITIAL_SIZE
      && start <= end <= size
    }

    ghost function Now(): Layout
      reads this
    {
      Layout(items, start, size, front)
    }

    /** What holds even in the middle of a removal. */
    ghost predicate Packed()
      reads this, buf
    {
      && Allocated()
      && buf[start..end] == Pack(items)
      && Strings(items)
      && end - start <= peak
      && (size == INITIAL_SIZE || size < 4 * peak)
      && (start == 0 && items != [] ==> front == items[0])
    }

    ghost predicate Valid()
      reads this, buf
    {
      if buf == null then
        size == 0 && start == 0 && end == 0 && items == []
      else
        && Packed()
        && start <= size / 2
        && (items == [] ==> start == 0 && buf[0] == NUL)
        && (items != [] ==> (buf[0] == NUL <==> front == ""))
    }

    constructor ()
      ensures Valid() && buf == null && items == [] && peak == 0
    {
      buf, size, start, end := null, 0, 0, 0;
      items, front, peak := [], "", 0;
    }

    method Reset()
      modifies this
      ensures Valid() && buf == null && items == []
    {
      buf, size, start, end := null, 0, 0, 0;
      items := [];
    }

    method Init()
      modifies this
      ensures Valid() && buf != null && fresh(buf) && Now() == EMPTY && peak == 0
    {
      Reset();
      size, front := INITIAL_SIZE, "";
      buf := new char[size](_ => NUL);
      peak := 0;
    }

    /** safe_strcpy of an entry to the end of the data, truncated to maxLength characters. */
    method CopyIn(entry: string, maxLength: nat)
      requires buf != null && end + maxLength < buf.Length
      modifies buf
      ensures |entry| <= maxLength ==> buf[end + |entry|] == NUL
      ensures |entry| <= maxLength ==> forall i :: 0 <= i < |entry| ==> buf[end + i] == entry[i]
      ensures forall i :: 0 <= i < end ==> buf[i] == old(buf[i])
    {
      var len := if |entry| > maxLength then maxLength else |entry|;
      forall i | 0 <= i < len {
        buf[end + i] := entry[i];
      }
      buf[end + len] := NUL;
    }

    /** Doubles the buffer until it holds newEnd bytes, clearing the new half each time. */
    method Grow(newEnd: nat)
      requires Allocated()
      modifies this`buf, this`size
      ensures Allocated() && size >= newEnd
      ensures if newEnd <= old(size) then buf == old(buf) && size == old(size)
              else fresh(buf) && 2 * old(size) <= size < 2 * newEnd
      ensures size == Doubled(old(size), newEnd)
      ensures forall i :: 0 <= i < old(size) ==> buf[i] == old(buf[i])
    {
      while newEnd > size
        invariant Allocated()
        invariant if size == old(size) then buf == old(buf)
                  else fresh(buf) && 2 * old(size) <= size < 2 * newEnd
        invariant Doubled(size, newEnd) == Doubled(old(size), newEnd)
        invariant forall i :: 0 <= i < old(size) ==> buf[i] == old(buf[i])
        decreases newEnd - size
      {
        var before := buf;
        size := size * 2;
        var bigger := new char[size](_ => NUL);
        forall i | 0 <= i < before.Length {
          bigger[i] := before[i];
        }
        buf := bigger;
      }
    }

    /** The code of add_to_do_list_queue: growth, copy, new end. */
    method Store(entry: string)
      requires Allocated() && start <= size / 2
      modifies this`buf, this`size, this`end, buf
      ensures Allocated() && (buf == old(buf) || fresh(buf))
      ensures end == old(end) + |entry| + 1
      ensures size == old(size) || 2 * old(size) <= size < 4 * (end - start)
      ensures size == Doubled(old(size), end)
      ensures buf[start..end] == old(buf[start..end]) + entry + [NUL]
      ensures buf[0] == if old(end) == 0 then (entry + [NUL])[0] else old(buf[0])
    {
      ghost var live := buf[start..end];
      var newEnd := end + |entry| + 1;
      Grow(newEnd);
      CopyIn(entry, size - end - 1);
      ghost var wanted := live + entry + [NUL];
      forall i | 0 <= i < |wanted|
        ensures buf[start + i] == wanted[i]
      {
        if |live| <= i < |live| + |entry| {
          assert buf[end + (i - |live|)] == entry[i - |live|];
        }
      }
      end := newEnd;
      assert buf[start..end] == wanted;
    }

    /** Takes note of an entry whose bytes have been appended. */
    ghost method Record(entry: string)
      requires Allocated() && buf[start..end] == Pack(items + [entry]) && Strings(items + [entry])
      requires start <= size / 2 && (items == [] ==> start == 0) && (start == 0 && items != [] ==> front == items[0])
      requires size == INITIAL_SIZE || size < 4 * peak || size < 4 * (end - start)
      requires buf[0] == NUL <==> (if items == [] then entry else front) == ""
      modifies this`front, this`items, this`peak
      ensures Valid() && items == old(items) + [entry] && front == if old(items) == [] then entry else old(front)
      ensures peak == if |Pack(items)| > old(peak) then |Pack(items)| else old(peak)
    {
      front := if items == [] then entry else front;
      items := items + [entry];
      peak := if end - start > peak then end - start else peak;
    }

    method Add(entry: string)
      requires Valid() && buf != null && NUL !in entry
      modifies this, buf
      ensures Valid() && buf != null && (buf == old(buf) || fresh(buf))
      ensures Now() == Place(old(Now()), Op.Add(entry))
      ensures items == old(items) + [entry] && front == if old(items) == [] then entry else old(front)
      ensures peak == if |Pack(items)| > old(peak) then |Pack(items)| else old(peak)
    {
      Append(entry);
      Record(entry);
    }

    /** The bytes of the queue with one more entry. */
    method Append(entry: string)
      requires Valid() && buf != null && NUL !in entry
      modifies this`buf, this`size, this`end, buf
      ensures Allocated() && (buf == old(buf) || fresh(buf)) && buf[start..end] == Pack(items + [entry])
      ensures size == Place(old(Now()), Op.Add(entry)).size
      ensures size == old(size) || size < 4 * (end - start)
      ensures buf[0] == NUL <==> (if items == [] then entry else front) == ""
    {
      PackedWith(items, entry);
      assert end - start == |Pack(items)|;
      Store(entry);
    }

    method HeadLength() returns (n: nat)
      requires Valid() && items != []
      ensures n == |items[0]| && start + n + 1 <= end
      ensures buf[start..start + n] == items[0] && buf[start + n] == NUL
      ensures buf[start + n + 1..end] == Pack(items[1..])
    {
      ghost var b := buf[..];
      assert b[start..end] == buf[start..end];
      HeadIn(b, start, end, items);
      assert buf[start..][|items[0]|] == NUL;
      n := StrLen(buf, start);
      assert b[n + start] == NUL && n == |items[0]|;
    }

    /** The string at the head, read out of the buffer up to its terminator. */
    method Head() returns (s: string)
      requires Valid() && items != []
      ensures s == items[0]
    {
      var n := HeadLength();
      s := buf[start..start + n];
    }

    /** Moves the live bytes to the front of the buffer. */
    method Slide()
      requires Packed() && items != []
      modifies this`start, this`end, this`front, buf
      ensures Valid() && start == 0 && front == items[0]
    {
      MemMove(buf, 0, start, end - start);
      end := end - start;
      start := 0;
      front := items[0];
      assert buf[0] == buf[..end][0] == Pack(items)[0];
    }

    /** Empties or slides the buffer after a removal. */
    method Adjust()
      requires Packed() && (buf[0] == NUL <==> front == "")
      modifies this`start, this`end, this`front, buf
      ensures Valid()
      ensures start == if items == [] || old(start) > size / 2 then 0 else old(start)
      ensures front == if items != [] && old(start) > size / 2 then items[0] else old(front)
    {
      if start == end {
        assert items == [];
        start, end := 0, 0;
        buf[0] := NUL;
      } else if start > size / 2 {
        Slide();
      }
    }

    method RemoveHead()
      requires Valid()
      modifies this`start, this`end, this`front, this`items, buf
      ensures Valid()
      ensures Now() == Place(old(Now()), Remove)
      ensures items == if old(items) == [] then [] else old(items)[1..]
      ensures front == old(front) || (items != [] && front == items[0])
    {
      if end > start {
        var n := HeadLength();
        start := start + (n + 1);
        items := items[1..];
        Adjust();
      }
    }

    /** The source's test: the first byte of the buffer, not the byte at start. */
    method Empty() returns (e: bool)
      requires Valid()
      ensures e <==> items == [] || front == ""
    {
      e := !(buf != null && buf[0] != NUL);
    }

    /** Reads the head with a NUL put at the given place, then puts the backslash back. */
    method CutAt(save: nat) returns (s: string)
      requires buf != null && start <= save < buf.Length && buf[save] == '\\' && NUL !in buf[start..save]
      modifies buf
      ensures forall i :: 0 <= i < buf.Length ==> buf[i] == old(buf[i])
      ensures s == buf[start..save]
    {
      assert forall i :: start <= i < save ==> buf[i] == buf[start..save][i - start] != NUL;
      buf[save] := NUL;
      assert buf[start..][save - start] == NUL;
      var cut := StrLen(buf, start);
      s := buf[start..start + cut];
      buf[save] := '\\';
    }

    method LabelAt(n: nat, ghost mask: string) returns (dir: string)
      requires buf != null && start + n < buf.Length && NUL !in mask && buf[start..start + n] == mask
      modifies buf
      ensures buf[..] == old(buf[..])
      ensures dir == LabelOf(mask)
    {
      LabelIs(mask);
      assert forall i :: 0 <= i < n ==> buf[start + i] == mask[i];
      if n >= 2 && buf[start + n - 1] == '*' && buf[start + n - 2] == '\\' {
        ghost var cut := mask[..n - 2];
        assert cut == buf[start..start + n - 2];
        dir := CutAt(start + n - 2);
        assert dir == cut;
      } else {
        dir := buf[start..start + n];
      }
    }

    /** The directory named by a head of the form dir\*, printed by cutting the tail off in place and restoring it. */
    method HeadLabel() returns (dir: string)
      requires Valid() && items != []
      modifies buf
      ensures buf[..] == old(buf[..]) && Valid()
      ensures dir == LabelOf(items[0])
    {
      var n := HeadLength();
      dir := LabelAt(n, items[0]);
      assert buf[start..end] == buf[..][start..end];
    }
  }

  /** The queue after the given operations. */
  ghost predicate After(q: Queue, ops: seq<Op>)
    reads q, q.buf
  {
    q.Valid() && q.buf != null && q.Now() == LayoutOf(ops) && q.peak == Peak(ops)
  }

  /** A blank entry at offset 0 hides the entries behind it. */
  lemma BlankEntryHides()
    ensures var ops := [Op.Add(""), Op.Add("a")];
            Fifo(ops) == ["", "a"] && SaysEmpty(LayoutOf(ops)) && !SaysEmpty(LayoutOf([Op.Add("a"), Op.Add("")]))
  {
    var one, ops: seq<Op> := [Op.Add("")], [Op.Add(""), Op.Add("a")];
    assert ops[..1] == one && one[..0] == [];
    assert LayoutOf(one).items == [""] && LayoutOf(one).front == "";
    var two: seq<Op>, other: seq<Op> := [Op.Add("a")], [Op.Add("a"), Op.Add("")];
    assert other[..1] == two && two[..0] == [];
    assert LayoutOf(two).items == ["a"] && LayoutOf(two).front == "a";
    LayoutIsFifo(ops);
  }

  /** Data that begins exactly in the middle is not moved: half the buffer, no less, must be free before anything is. */
  lemma MiddleStays(x: string, y: string)
    requires |x| == INITIAL_SIZE / 2 - 1 && |y| < INITIAL_SIZE / 2
    ensures var l := LayoutOf([Op.Add(x), Op.Add(y), Remove]);
            l.items == [y] && l.start == l.size / 2 == INITIAL_SIZE / 2 && l.front == x
  {
    var one: seq<Op>, two: seq<Op>, three: seq<Op> := [Op.Add(x)], [Op.Add(x), Op.Add(y)], [Op.Add(x), Op.Add(y), Remove];
    assert three[..2] == two && two[..1] == one && one[..0] == [];
    assert LayoutOf(one) == Layout([x], 0, INITIAL_SIZE, x);
    assert Pack([x]) == x + [NUL] + Pack([]) by {
      assert [x][1..] == [];
    }
    assert LayoutOf(two) == Layout([x, y], 0, INITIAL_SIZE, x);
    assert [x, y][1..] == [y];
  }
}
