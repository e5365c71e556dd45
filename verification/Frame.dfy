/** Stored objects as bytes (pkg/storage/storage.go): a count, the length of each part, and then the parts; and reading
    the parts back from bytes that need not come from there. */
module Frame {
  import opened Orders
  import opened Digests

  type Byte = x: int | 0 <= x < 256

  type Bytes = seq<Byte>

  const MAX_PAYLOAD_BYTES := 10 * 1024 * 1024
  const MAX_HEAD_BYTES := 1024 * 1024
  const MAX_BLOBS := 8
  const MAX_VARINT_LEN := 10
  const HEADER_MAX := (MAX_BLOBS + 2) * MAX_VARINT_LEN

  datatype Object = Object(rev: Digest, head: Bytes, blobs: seq<Bytes>)

  /** Offset and length of the head and of each blob, in order. */
  datatype Layout = Layout(offsets: seq<nat>, lengths: seq<nat>)

  // ----- varints

  function Put(v: nat): Bytes {
    if v < 128 then [v] else [v % 128 + 128] + Put(v / 128)
  }

  method PutUvarint(v: nat) returns (out: Bytes)
    ensures out == Put(v)
  {
    out := [];
    var x := v;
    while x >= 128
      invariant out + Put(x) == Put(v)
    {
      assert (out + [x % 128 + 128]) + Put(x / 128) == out + Put(x);
      out := out + [x % 128 + 128];
      x := x / 128;
    }
    out := out + [x];
  }

  /** A decoded number and how many bytes it took. */
  datatype Varint = Varint(value: nat, size: nat) | BadVarint

  /** Seven bits a byte, least significant first; at most ten bytes, and no bit beyond
      the sixty-fourth. `i` bytes came before. */
  function Decode(buf: Bytes, i: nat): Varint
    requires i <= MAX_VARINT_LEN
  {
    if buf == [] || i == MAX_VARINT_LEN then BadVarint
    else if buf[0] < 128 then
      if i == MAX_VARINT_LEN - 1 && buf[0] > 1 then BadVarint else Varint(buf[0], 1)
    else
      var rest := Decode(buf[1..], i + 1);
      if rest.BadVarint? then BadVarint else Varint(buf[0] % 128 + 128 * rest.value, rest.size + 1)
  }

  /** What `i` bytes leave of the sixty-four bits. */
  function Cap(i: nat): nat
    requires i < MAX_VARINT_LEN
    decreases MAX_VARINT_LEN - i
  {
    if i == MAX_VARINT_LEN - 1 then 2 else 128 * Cap(i + 1)
  }

  lemma CapIs64Bits()
    ensures Cap(0) == 0x1_0000_0000_0000_0000
  {
    assert Cap(6) == 128 * 128 * 128 * 2;
    assert Cap(3) == 128 * 128 * 128 * Cap(6);
  }

  /** A decoded number fits the bits that were left, and does not reach past the buffer. */
  lemma {:induction false} DecodeFits(buf: Bytes, i: nat)
    requires i <= MAX_VARINT_LEN
    ensures var d := Decode(buf, i);
            d.Varint? ==> i < MAX_VARINT_LEN && d.value < Cap(i) && 1 <= d.size <= |buf| && i + d.size <= MAX_VARINT_LEN
  {
    if buf != [] && i < MAX_VARINT_LEN && buf[0] >= 128 {
      DecodeFits(buf[1..], i + 1);
    } else if buf != [] && i < MAX_VARINT_LEN {
      CapAtLeast(i);
    }
  }

  lemma {:induction false} CapAtLeast(i: nat)
    requires i < MAX_VARINT_LEN
    ensures Cap(i) >= 2 && (i < MAX_VARINT_LEN - 1 ==> Cap(i) >= 128)
    decreases MAX_VARINT_LEN - i
  {
    if i < MAX_VARINT_LEN - 1 {
      CapAtLeast(i + 1);
    }
  }

  function Pow128(i: nat): nat {
    if i == 0 then 1 else 128 * Pow128(i - 1)
  }

  function Shifted(x: nat, i: nat, d: Varint): Varint {
    if d.BadVarint? then d else Varint(x + Pow128(i) * d.value, i + d.size)
  }

  /** binary.Uvarint: the number at the start of the buffer; every shifted sum stays
      within sixty-four bits when it is accepted. */
  method Uvarint(buf: Bytes) returns (d: Varint)
    ensures d == Decode(buf, 0)
    ensures d.Varint? ==> d.value < 0x1_0000_0000_0000_0000 && 1 <= d.size <= |buf|
  {
    CapIs64Bits();
    DecodeFits(buf, 0);
    var x: nat, i: nat, p: nat := 0, 0, 1;
    while i < |buf|
      invariant i <= |buf| && i <= MAX_VARINT_LEN
      invariant p == Pow128(i) && x < p
      invariant Decode(buf, 0) == Shifted(x, i, Decode(buf[i..], i))
    {
      if i == MAX_VARINT_LEN {
        return BadVarint;
      }
      var b: nat := buf[i];
      if b < 128 {
        if i == MAX_VARINT_LEN - 1 && b > 1 {
          return BadVarint;
        }
        ShiftLast(x, i, buf);
        return Varint(x + b * p, i + 1);
      }
      ShiftOne(x, i, buf);
      StaysBelow(x, b % 128, p);
      x := x + (b % 128) * p;
      p := p * 128;
      i := i + 1;
    }
    d := BadVarint;
  }

  lemma ShiftOne(x: nat, i: nat, buf: Bytes)
    requires i < |buf| && i < MAX_VARINT_LEN && buf[i] >= 128
    ensures Shifted(x, i, Decode(buf[i..], i)) ==
              Shifted(x + (buf[i] % 128) * Pow128(i), i + 1, Decode(buf[i + 1..], i + 1))
  {
    assert buf[i..][1..] == buf[i + 1..];
    var rest := Decode(buf[i + 1..], i + 1);
    if rest.Varint? {
      Distribute(Pow128(i), buf[i] % 128, rest.value);
    }
  }

  lemma ShiftLast(x: nat, i: nat, buf: Bytes)
    requires i < |buf| && i < MAX_VARINT_LEN && buf[i] < 128 && !(i == MAX_VARINT_LEN - 1 && buf[i] > 1)
    ensures Shifted(x, i, Decode(buf[i..], i)) == Varint(x + buf[i] * Pow128(i), i + 1)
  {
    assert Decode(buf[i..], i) == Varint(buf[i], 1);
    Commute(Pow128(i), buf[i]);
  }

  lemma Commute(p: nat, b: nat)
    ensures p * b == b * p
  {
  }

  lemma StaysBelow(x: nat, b: nat, p: nat)
    requires x < p && b < 128
    ensures x + b * p < p * 128
  {
    assert b * p <= 127 * p;
  }

  lemma Distribute(p: nat, b: nat, v: nat)
    ensures p * (b + 128 * v) == b * p + (128 * p) * v
  {
  }

  /** Decoding undoes encoding, whatever follows. */
  lemma {:induction false} DecodePut(v: nat, i: nat, more: Bytes)
    requires i < MAX_VARINT_LEN && v < Cap(i)
    ensures Decode(Put(v) + more, i) == Varint(v, |Put(v)|)
    decreases v
  {
    if v >= 128 {
      assert (Put(v) + more)[1..] == Put(v / 128) + more;
      DecodePut(v / 128, i + 1, more);
    }
  }

  lemma {:induction false} PutSize(v: nat, n: nat)
    requires n > 0 && v < Pow128(n)
    ensures 1 <= |Put(v)| <= n
  {
    if v >= 128 {
      assert Pow128(1) == 128;
      PutSize(v / 128, n - 1);
    }
  }

  // ----- headers

  function Limit(i: nat): nat {
    if i == 0 then MAX_HEAD_BYTES else MAX_PAYLOAD_BYTES
  }

  datatype Header = Header(lengths: seq<nat>, end: nat)

  function Sum(lengths: seq<nat>): nat {
    if lengths == [] then 0 else Sum(lengths[..|lengths| - 1]) + lengths[|lengths| - 1]
  }

  /** The remaining lengths of a header, from part `i` on: each decodes and is within the bound of its part. */
  function Lengths(buf: Bytes, pos: nat, i: nat, count: nat): Option<Header>
    requires pos <= |buf| && i <= count
    decreases count - i
  {
    if i == count then Some(Header([], pos))
    else
      DecodeFits(buf[pos..], 0);
      var d := Decode(buf[pos..], 0);
      if d.BadVarint? || d.value > Limit(i) then None
      else
        var rest := Lengths(buf, pos + d.size, i + 1, count);
        if rest.None? then None else Some(Header([d.value] + rest.value.lengths, rest.value.end))
  }

  function HeaderOf(buf: Bytes): Option<Header> {
    DecodeFits(buf, 0);
    var d := Decode(buf, 0);
    if d.BadVarint? || d.value == 0 || d.value > MAX_BLOBS + 1 then None
    else Lengths(buf, d.size, 0, d.value)
  }

  /** The bytes a reader gets of the start of an object said to have this size: what is missing reads as zeros. */
  function Window(data: Bytes, size: nat): Bytes {
    var n := if size < HEADER_MAX then size else HEADER_MAX;
    if n <= |data| then data[..n] else data + seq(n - |data|, _ => 0)
  }

  function Offsets(start: nat, lengths: seq<nat>): seq<nat> {
    if lengths == [] then [] else Offsets(start, lengths[..|lengths| - 1]) + [start + Sum(lengths[..|lengths| - 1])]
  }

  /** The layout that a header describes, if its parts fill the object and the head is not empty. */
  function LayoutOf(data: Bytes, size: nat): Option<Layout> {
    var h := HeaderOf(Window(data, size));
    if h.None? || h.value.lengths == [] || h.value.lengths[0] == 0 || h.value.end + Sum(h.value.lengths) != size
    then None
    else Some(Layout(Offsets(h.value.end, h.value.lengths), h.value.lengths))
  }

  function Consed(done: seq<nat>, h: Option<Header>): Option<Header> {
    if h.None? then h else Some(Header(done + h.value.lengths, h.value.end))
  }

  lemma ConsNext(done: seq<nat>, v: nat, h: Option<Header>)
    ensures Consed(done, Consed([v], h)) == Consed(done + [v], h)
  {
    if h.Some? {
      assert done + ([v] + h.value.lengths) == (done + [v]) + h.value.lengths;
    }
  }

  lemma {:induction false} SumBound(lengths: seq<nat>)
    requires forall i :: 0 <= i < |lengths| ==> lengths[i] <= Limit(i)
    ensures Sum(lengths) <= |lengths| * MAX_PAYLOAD_BYTES
  {
    if lengths != [] {
      SumBound(lengths[..|lengths| - 1]);
    }
  }

  lemma SumNext(lengths: seq<nat>, v: nat)
    ensures Sum(lengths + [v]) == Sum(lengths) + v
    ensures forall start: nat :: Offsets(start, lengths + [v]) == Offsets(start, lengths) + [start + Sum(lengths)]
  {
    assert (lengths + [v])[..|lengths|] == lengths;
  }

  /** The length of part `i`, if it decodes and is within its bound. */
  method ReadLength(buf: Bytes, pos: nat, i: nat) returns (d: Varint)
    requires pos <= |buf|
    ensures d == if Decode(buf[pos..], 0).Varint? && Decode(buf[pos..], 0).value > Limit(i) then BadVarint
            else Decode(buf[pos..], 0)
    ensures d.Varint? ==> pos + d.size <= |buf|
  {
    d := Uvarint(buf[pos..]);
    if d.Varint? && d.value > (if i == 0 then MAX_HEAD_BYTES else MAX_PAYLOAD_BYTES) {
      d := BadVarint;
    }
  }

  /** The lengths read so far, and those to come. */
  ghost predicate SoFar(buf: Bytes, all: Option<Header>, pos: nat, i: nat, count: nat, lengths: seq<nat>) {
    pos <= |buf| && i <= count && all == Consed(lengths, Lengths(buf, pos, i, count))
  }

  lemma SoFarNext(buf: Bytes, all: Option<Header>, pos: nat, i: nat, count: nat, lengths: seq<nat>)
    requires SoFar(buf, all, pos, i, count, lengths) && i < count
    ensures var d := Decode(buf[pos..], 0);
            if d.BadVarint? || d.value > Limit(i) then all == None
            else pos + d.size <= |buf| ==> SoFar(buf, all, pos + d.size, i + 1, count, lengths + [d.value])
  {
    var d := Decode(buf[pos..], 0);
    DecodeFits(buf[pos..], 0);
    if d.Varint? && d.value <= Limit(i) {
      ConsNext(lengths, d.value, Lengths(buf, pos + d.size, i + 1, count));
    }
  }

  lemma SoFarDone(buf: Bytes, all: Option<Header>, pos: nat, count: nat, lengths: seq<nat>)
    requires SoFar(buf, all, pos, count, count, lengths)
    ensures all == Some(Header(lengths, pos))
  {
    assert lengths + [] == lengths;
  }

  lemma SumFits(buf: Bytes, start: nat, count: nat)
    requires start <= |buf| && count <= MAX_BLOBS + 1
    ensures var h := Lengths(buf, start, 0, count); h.Some? ==> Sum(h.value.lengths) < 0x8000_0000_0000_0000
  {
    LengthsFit(buf, start, 0, count);
    var h := Lengths(buf, start, 0, count);
    if h.Some? {
      SumBound(h.value.lengths);
      Times9(|h.value.lengths|);
    }
  }

  lemma Times9(n: nat)
    requires n <= 9
    ensures n * MAX_PAYLOAD_BYTES <= 9 * MAX_PAYLOAD_BYTES
  {
  }

  /** The sum of the lengths cannot overflow. */
  method ReadLengths(buf: Bytes, start: nat, count: nat) returns (h: Option<Header>, total: nat)
    requires start <= |buf| && count <= MAX_BLOBS + 1
    ensures h == Lengths(buf, start, 0, count)
    ensures h.Some? ==> total == Sum(h.value.lengths) && total < 0x8000_0000_0000_0000
  {
    var lengths: seq<nat>, pos: nat := [], start;
    total := 0;
    ghost var all := Lengths(buf, start, 0, count);
    ConsNone(all);
    for i := 0 to count
      invariant SoFar(buf, all, pos, i, count, lengths)
      invariant total == Sum(lengths)
    {
      SoFarNext(buf, all, pos, i, count, lengths);
      var v := ReadLength(buf, pos, i);
      if v.BadVarint? {
        return None, 0;
      }
      SumNext(lengths, v.value);
      pos := pos + v.size;
      lengths := lengths + [v.value];
      total := total + v.value;
    }
    SoFarDone(buf, all, pos, count, lengths);
    SumFits(buf, start, count);
    h := Some(Header(lengths, pos));
  }

  lemma ConsNone(h: Option<Header>)
    ensures Consed([], h) == h
  {
    if h.Some? {
      assert [] + h.value.lengths == h.value.lengths;
    }
  }

  method Place(start: nat, lengths: seq<nat>) returns (offsets: seq<nat>)
    ensures offsets == Offsets(start, lengths)
  {
    var off := start;
    offsets := [];
    for i := 0 to |lengths|
      invariant off == start + Sum(lengths[..i]) && offsets == Offsets(start, lengths[..i])
    {
      SumNext(lengths[..i], lengths[i]);
      assert lengths[..i + 1] == lengths[..i] + [lengths[i]];
      offsets := offsets + [off];
      off := off + lengths[i];
    }
    assert lengths[..|lengths|] == lengths;
  }

  /** Decides the layout from at most the first `HEADER_MAX` bytes; the offsets follow from the lengths alone. */
  method ReadLayout(data: Bytes, size: nat) returns (l: Option<Layout>)
    ensures l == LayoutOf(data, size)
  {
    var buf := Window(data, size);
    var count := Uvarint(buf);
    if count.BadVarint? || count.value == 0 || count.value > MAX_BLOBS + 1 {
      return None;
    }
    var h, total := ReadLengths(buf, count.size, count.value);
    if h.None? {
      return None;
    }
    LengthsFit(buf, count.size, 0, count.value);
    if h.value.lengths[0] == 0 || total != size - h.value.end {
      return None;
    }
    var offsets := Place(h.value.end, h.value.lengths);
    l := Some(Layout(offsets, h.value.lengths));
  }

  // ----- accepted layouts tile the object

  /** One part after the other from the end of the header to the end of the object, without gap or overlap. */
  ghost predicate Tiles(l: Layout, start: nat, size: nat) {
    && |l.offsets| == |l.lengths| > 0 && l.offsets[0] == start
    && (forall i :: 0 <= i < |l.lengths| - 1 ==> l.offsets[i + 1] == l.offsets[i] + l.lengths[i])
    && l.offsets[|l.lengths| - 1] + l.lengths[|l.lengths| - 1] == size
  }

  lemma {:induction false} OffsetsTile(start: nat, lengths: seq<nat>)
    ensures |Offsets(start, lengths)| == |lengths|
    ensures forall i :: 0 <= i < |lengths| ==> Offsets(start, lengths)[i] == start + Sum(lengths[..i])
  {
    if lengths != [] {
      var front := lengths[..|lengths| - 1];
      OffsetsTile(start, front);
      forall i | 0 <= i < |lengths| ensures Offsets(start, lengths)[i] == start + Sum(lengths[..i]) {
        if i < |front| {
          assert front[..i] == lengths[..i];
        }
      }
    }
  }

  lemma {:induction false} LengthsFit(buf: Bytes, pos: nat, i: nat, count: nat)
    requires pos <= |buf| && i <= count
    ensures var h := Lengths(buf, pos, i, count);
            h.Some? ==> && |h.value.lengths| == count - i && pos <= h.value.end <= |buf|
                        && forall k :: 0 <= k < count - i ==> h.value.lengths[k] <= Limit(i + k)
    decreases count - i
  {
    if i < count {
      DecodeFits(buf[pos..], 0);
      var d := Decode(buf[pos..], 0);
      if d.Varint? && d.value <= Limit(i) {
        LengthsFit(buf, pos + d.size, i + 1, count);
      }
    }
  }

  lemma PartEnds(lengths: seq<nat>, i: nat)
    requires i < |lengths|
    ensures Sum(lengths[..i + 1]) == Sum(lengths[..i]) + lengths[i] <= Sum(lengths)
  {
    assert lengths[..i + 1] == lengths[..i] + [lengths[i]];
    SumNext(lengths[..i], lengths[i]);
    SumPrefix(lengths, i + 1);
  }

  lemma PlacedTile(start: nat, lengths: seq<nat>)
    requires lengths != []
    ensures Tiles(Layout(Offsets(start, lengths), lengths), start, start + Sum(lengths))
    ensures forall i :: 0 <= i < |lengths| ==> Offsets(start, lengths)[i] + lengths[i] <= start + Sum(lengths)
  {
    OffsetsTile(start, lengths);
    var offsets := Offsets(start, lengths);
    forall i | 0 <= i < |lengths|
      ensures offsets[i] + lengths[i] <= start + Sum(lengths) &&
              (i + 1 < |lengths| ==> offsets[i + 1] == offsets[i] + lengths[i])
    {
      PartEnds(lengths, i);
    }
    var last := |lengths| - 1;
    PartEnds(lengths, last);
    assert lengths[..last + 1] == lengths && lengths[..0] == [];
  }

  lemma HeaderFits(buf: Bytes)
    ensures var h := HeaderOf(buf);
            h.Some? ==> && 0 < |h.value.lengths| <= MAX_BLOBS + 1 && 0 < h.value.end <= |buf|
                        && forall k :: 0 <= k < |h.value.lengths| ==> h.value.lengths[k] <= Limit(k)
  {
    DecodeFits(buf, 0);
    var d := Decode(buf, 0);
    if d.Varint? && d.value != 0 && d.value <= MAX_BLOBS + 1 {
      LengthsFit(buf, d.size, 0, d.value);
    }
  }

  /** Whatever the bytes and the size claimed for them, the parts of an accepted layout lie inside the object behind its
      header, fill it exactly, and are within their bounds. */
  lemma AcceptedTiles(data: Bytes, size: nat)
    ensures var l := LayoutOf(data, size);
            l.Some? ==> exists start: nat :: 0 < start <= size && start <= HEADER_MAX && Tiles(l.value, start, size)
    ensures var l := LayoutOf(data, size);
            l.Some? ==> && 0 < |l.value.lengths| == |l.value.offsets| <= MAX_BLOBS + 1 && l.value.lengths[0] > 0
                        && forall i :: 0 <= i < |l.value.lengths| ==>
                             l.value.lengths[i] <= Limit(i) && l.value.offsets[i] + l.value.lengths[i] <= size
  {
    var h := HeaderOf(Window(data, size));
    HeaderFits(Window(data, size));
    if LayoutOf(data, size).Some? {
      PlacedTile(h.value.end, h.value.lengths);
    }
  }

  lemma {:induction false} SumPrefix(lengths: seq<nat>, n: nat)
    requires n <= |lengths|
    ensures Sum(lengths[..n]) <= Sum(lengths)
  {
    if n < |lengths| {
      var front := lengths[..|lengths| - 1];
      SumPrefix(front, n);
      assert front[..n] == lengths[..n];
    } else {
      assert lengths[..n] == lengths;
    }
  }

  // ----- reading undoes framing

  function PutAll(parts: seq<Bytes>): Bytes {
    if parts == [] then [] else Put(|parts[0]|) + PutAll(parts[1..])
  }

  function Joined(parts: seq<Bytes>): Bytes {
    if parts == [] then [] else Joined(parts[..|parts| - 1]) + parts[|parts| - 1]
  }

  function Parts(o: Object): seq<Bytes> {
    [o.head] + o.blobs
  }

  function Framed(parts: seq<Bytes>): Bytes {
    Put(|parts|) + PutAll(parts) + Joined(parts)
  }

  method FrameObject(o: Object) returns (out: Bytes)
    ensures out == Framed(Parts(o))
  {
    var parts := [o.head] + o.blobs;
    out := PutUvarint(|parts|);
    for i := 0 to |parts|
      invariant out + PutAll(parts[i..]) == Put(|parts|) + PutAll(parts)
    {
      var n := PutUvarint(|parts[i]|);
      assert parts[i..][1..] == parts[i + 1..];
      assert (out + n) + PutAll(parts[i + 1..]) == out + PutAll(parts[i..]);
      out := out + n;
    }
    assert parts[|parts|..] == [];
    ghost var header := out;
    for i := 0 to |parts|
      invariant out == header + Joined(parts[..i])
    {
      assert parts[..i + 1][..i] == parts[..i];
      out := out + parts[i];
    }
    assert parts[..|parts|] == parts;
  }

  /** What publishing checks about the parts of an object. */
  predicate ValidParts(o: Object) {
    && 0 < |o.head| <= MAX_HEAD_BYTES && |o.blobs| <= MAX_BLOBS
    && forall i :: 0 <= i < |o.blobs| ==> 0 < |o.blobs[i]| <= MAX_PAYLOAD_BYTES
  }

  function Sizes(parts: seq<Bytes>): seq<nat> {
    seq(|parts|, i requires 0 <= i < |parts| => |parts[i]|)
  }

  ghost predicate WithinLimits(parts: seq<Bytes>, i: nat) {
    forall k :: 0 <= k < |parts| ==> |parts[k]| <= Limit(i + k)
  }

  lemma LimitFits(i: nat, v: nat)
    requires v <= Limit(i)
    ensures v < Cap(0) && v < Pow128(4)
  {
    CapIs64Bits();
    assert Pow128(4) == 128 * 128 * 128 * 128 by { assert Pow128(2) == 128 * 128; }
  }

  lemma {:induction false} PutAllSize(parts: seq<Bytes>, i: nat)
    requires WithinLimits(parts, i)
    ensures |PutAll(parts)| <= 4 * |parts|
  {
    if parts != [] {
      LimitFits(i, |parts[0]|);
      PutSize(|parts[0]|, 4);
      TailsWithinLimits(parts, i);
      PutAllSize(parts[1..], i + 1);
    }
  }

  lemma LengthRead(buf: Bytes, pos: nat, v: nat, rest: Bytes)
    requires pos <= |buf| && buf[pos..] == Put(v) + rest && v < Cap(0)
    ensures Decode(buf[pos..], 0) == Varint(v, |Put(v)|)
    ensures pos + |Put(v)| <= |buf| && buf[pos + |Put(v)|..] == rest
  {
    DecodePut(v, 0, rest);
    var tail := buf[pos..];
    assert |tail| == |Put(v)| + |rest|;
    assert tail[|Put(v)|..] == rest;
    assert buf[pos + |Put(v)|..] == tail[|Put(v)|..];
  }

  lemma TailsWithinLimits(parts: seq<Bytes>, i: nat)
    requires parts != [] && WithinLimits(parts, i)
    ensures |parts[0]| <= Limit(i) && WithinLimits(parts[1..], i + 1)
    ensures Sizes(parts) == [|parts[0]|] + Sizes(parts[1..])
  {
    assert |parts[0]| <= Limit(i + 0);
    forall k | 0 <= k < |parts[1..]| ensures |parts[1..][k]| <= Limit(i + 1 + k) {
      assert |parts[k + 1]| <= Limit(i + (k + 1));
    }
  }

  /** The lengths written in a header read back, whatever follows them. */
  lemma {:induction false} LengthsRead(buf: Bytes, pos: nat, parts: seq<Bytes>, i: nat, count: nat, more: Bytes)
    requires pos <= |buf| && buf[pos..] == PutAll(parts) + more && WithinLimits(parts, i) && count == i + |parts|
    ensures Lengths(buf, pos, i, count) == Some(Header(Sizes(parts), pos + |PutAll(parts)|))
    decreases |parts|
  {
    if parts == [] {
      assert Sizes(parts) == [];
    } else {
      var v, rest := |parts[0]|, PutAll(parts[1..]) + more;
      TailsWithinLimits(parts, i);
      LimitFits(i, v);
      assert Put(v) + PutAll(parts[1..]) + more == Put(v) + rest;
      LengthRead(buf, pos, v, rest);
      LengthsRead(buf, pos + |Put(v)|, parts[1..], i + 1, count, more);
    }
  }

  lemma {:induction false} JoinedSize(parts: seq<Bytes>)
    ensures |Joined(parts)| == Sum(Sizes(parts))
  {
    if parts != [] {
      var n := |parts| - 1;
      JoinedSize(parts[..n]);
      assert Sizes(parts)[..n] == Sizes(parts[..n]);
    } else {
      assert Sizes(parts) == [];
    }
  }

  lemma {:induction false} JoinedAt(parts: seq<Bytes>, i: nat)
    requires i < |parts|
    ensures var start := Sum(Sizes(parts)[..i]);
            start + |parts[i]| <= |Joined(parts)| && Joined(parts)[start..start + |parts[i]|] == parts[i]
  {
    var n := |parts| - 1;
    var front := parts[..n];
    JoinedSize(front);
    assert Sizes(parts)[..n] == Sizes(front);
    if i < n {
      JoinedAt(front, i);
      assert Sizes(front)[..i] == Sizes(parts)[..i];
      var start := Sum(Sizes(parts)[..i]);
      assert Joined(parts)[start..start + |parts[i]|] == Joined(front)[start..start + |parts[i]|];
    }
  }

  /** A short header is read whole. */
  lemma WindowOf(header: Bytes, body: Bytes) returns (more: Bytes)
    requires |header| <= HEADER_MAX
    ensures Window(header + body, |header + body|) == header + more
  {
    var data := header + body;
    var n := if |data| < HEADER_MAX then |data| else HEADER_MAX;
    more := body[..n - |header|];
    assert data[..n] == header + more;
  }

  lemma CountRead(buf: Bytes, n: nat, tail: Bytes)
    requires buf == Put(n) + tail && 0 < n <= MAX_BLOBS + 1
    ensures |Put(n)| <= |buf| && buf[|Put(n)|..] == tail && HeaderOf(buf) == Lengths(buf, |Put(n)|, 0, n)
  {
    CapIs64Bits();
    DecodePut(n, 0, tail);
  }

  lemma ShortHeader(parts: seq<Bytes>)
    requires 0 < |parts| <= MAX_BLOBS + 1 && WithinLimits(parts, 0)
    ensures |Put(|parts|) + PutAll(parts)| <= HEADER_MAX
  {
    PutAllSize(parts, 0);
    assert |Put(|parts|)| == 1;
  }

  lemma HeaderReads(parts: seq<Bytes>, more: Bytes)
    requires 0 < |parts| <= MAX_BLOBS + 1 && WithinLimits(parts, 0)
    ensures HeaderOf(Put(|parts|) + PutAll(parts) + more) ==
              Some(Header(Sizes(parts), |Put(|parts|)| + |PutAll(parts)|))
  {
    var count, tail := Put(|parts|), PutAll(parts) + more;
    var buf := Put(|parts|) + PutAll(parts) + more;
    assert buf == count + tail;
    CountRead(buf, |parts|, tail);
    LengthsRead(buf, |count|, parts, 0, |parts|, more);
  }

  lemma FramedHeader(parts: seq<Bytes>)
    requires 0 < |parts| <= MAX_BLOBS + 1 && WithinLimits(parts, 0)
    ensures HeaderOf(Window(Framed(parts), |Framed(parts)|)) ==
              Some(Header(Sizes(parts), |Put(|parts|)| + |PutAll(parts)|))
  {
    ShortHeader(parts);
    var more := WindowOf(Put(|parts|) + PutAll(parts), Joined(parts));
    HeaderReads(parts, more);
  }

  function HeaderSize(parts: seq<Bytes>): nat {
    |Put(|parts|)| + |PutAll(parts)|
  }

  function FramedAt(parts: seq<Bytes>): Layout {
    Layout(Offsets(HeaderSize(parts), Sizes(parts)), Sizes(parts))
  }

  lemma LayoutFrom(data: Bytes, h: Header)
    requires HeaderOf(Window(data, |data|)) == Some(h) && h.lengths != [] && h.lengths[0] != 0 &&
             h.end + Sum(h.lengths) == |data|
    ensures LayoutOf(data, |data|) == Some(Layout(Offsets(h.end, h.lengths), h.lengths))
  {
  }

  lemma FramedSize(parts: seq<Bytes>)
    ensures |Framed(parts)| == HeaderSize(parts) + Sum(Sizes(parts))
  {
    JoinedSize(parts);
  }

  lemma FramedLayout(parts: seq<Bytes>)
    requires 0 < |parts| <= MAX_BLOBS + 1 && WithinLimits(parts, 0) && parts[0] != []
    ensures LayoutOf(Framed(parts), |Framed(parts)|) == Some(FramedAt(parts))
  {
    FramedHeader(parts);
    FramedSize(parts);
    LayoutFrom(Framed(parts), Header(Sizes(parts), HeaderSize(parts)));
  }

  /** Each part lies where the layout says. */
  ghost predicate LaysOut(data: Bytes, l: Layout, parts: seq<Bytes>) {
    && |l.offsets| == |l.lengths| == |parts|
    && (forall i :: 0 <= i < |parts| ==> l.lengths[i] == |parts[i]| && IsAt(data, l.offsets[i], parts[i]))
  }

  ghost predicate IsAt(data: Bytes, at: nat, part: Bytes) {
    at + |part| <= |data| && data[at..at + |part|] == part
  }

  lemma PartIsAt(parts: seq<Bytes>, i: nat)
    requires i < |parts|
    ensures |FramedAt(parts).offsets| == |parts| && IsAt(Framed(parts), FramedAt(parts).offsets[i], parts[i])
  {
    var header := Put(|parts|) + PutAll(parts);
    OffsetsTile(|header|, Sizes(parts));
    JoinedAt(parts, i);
    PartAt(header, Joined(parts), Sum(Sizes(parts)[..i]), |parts[i]|);
  }

  lemma PartsAreAt(parts: seq<Bytes>)
    requires parts != []
    ensures LaysOut(Framed(parts), FramedAt(parts), parts)
  {
    var data, l := Framed(parts), FramedAt(parts);
    PartIsAt(parts, 0);
    forall i | 0 <= i < |parts| ensures IsAt(data, l.offsets[i], parts[i]) {
      PartIsAt(parts, i);
    }
  }

  lemma ValidWithinLimits(o: Object)
    requires ValidParts(o)
    ensures WithinLimits(Parts(o), 0) && 0 < |Parts(o)| <= MAX_BLOBS + 1 && Parts(o)[0] != []
  {
  }

  /** Reading back a framed object gives a layout whose parts are exactly the head and the blobs. */
  lemma FramingReadsBack(o: Object)
    requires ValidParts(o)
    ensures var data := Framed(Parts(o));
            LayoutOf(data, |data|).Some? && LaysOut(data, LayoutOf(data, |data|).value, Parts(o))
  {
    ValidWithinLimits(o);
    FramedLayout(Parts(o));
    PartsAreAt(Parts(o));
  }

  lemma PartAt(header: Bytes, body: Bytes, start: nat, n: nat)
    requires start + n <= |body|
    ensures (header + body)[|header| + start..|header| + start + n] == body[start..start + n]
  {
  }

  /** What reading `n` bytes at `at` gives; what is missing reads as zeros. */
  function Section(data: Bytes, at: nat, n: nat): Bytes {
    if at + n <= |data| then data[at..at + n]
    else if at <= |data| then data[at..] + seq(at + n - |data|, _ => 0)
    else seq(n, _ => 0)
  }

  /** The bytes the layout gives for the head. */
  function HeadOf(data: Bytes, l: Layout): Bytes
    requires l.offsets != [] && l.lengths != []
  {
    Section(data, l.offsets[0], l.lengths[0])
  }

  /** Gives out a head only when it hashes to the name it was asked for under. */
  method ReadHead(data: Bytes, size: nat, rev: Digest, hash: Bytes -> Digest)
    returns (head: Option<Bytes>, l: Option<Layout>)
    ensures l == LayoutOf(data, size)
    ensures l.Some? ==> l.value.offsets != [] && l.value.lengths != []
    ensures head == if l.Some? && hash(HeadOf(data, l.value)) == rev then Some(HeadOf(data, l.value)) else None
    ensures head.Some? ==> hash(head.value) == rev && 0 < |head.value| <= MAX_HEAD_BYTES
  {
    l := ReadLayout(data, size);
    AcceptedTiles(data, size);
    if l.None? {
      return None, None;
    }
    var bytes := Section(data, l.value.offsets[0], l.value.lengths[0]);
    head := if hash(bytes) != rev then None else Some(bytes);
  }

  /** A published object's head reads back under its own name. */
  lemma HeadReadsBack(o: Object, hash: Bytes -> Digest)
    requires ValidParts(o) && hash(o.head) == o.rev
    ensures var data := Framed(Parts(o));
            var l := LayoutOf(data, |data|);
            l.Some? && l.value.offsets != [] && l.value.lengths != [] && HeadOf(data, l.value) == o.head &&
            hash(HeadOf(data, l.value)) == o.rev
  {
    FramingReadsBack(o);
    var data := Framed(Parts(o));
    assert IsAt(data, LayoutOf(data, |data|).value.offsets[0], Parts(o)[0]);
  }

  // ----- one blob of an object

  lemma BlobBehindHead(data: Bytes, size: nat, i: nat)
    requires LayoutOf(data, size).Some?
    ensures var l := LayoutOf(data, size).value;
            && |l.offsets| == |l.lengths| > 0
            && (0 < i < |l.lengths| ==>
                  l.offsets[0] + l.lengths[0] <= l.offsets[i] && l.offsets[i] + l.lengths[i] <= size)
  {
    AcceptedTiles(data, size);
    var h := HeaderOf(Window(data, size)).value;
    OffsetsTile(h.end, h.lengths);
    if 0 < i < |h.lengths| {
      SumPrefix(h.lengths[..i], 1);
      assert h.lengths[..i][..1] == h.lengths[..0] + [h.lengths[0]];
      SumNext(h.lengths[..0], h.lengths[0]);
    }
  }

  /** Reading the section that the layout gives for blob `i` of a framed object gives that blob. */
  lemma BlobReadsBack(o: Object, i: nat)
    requires ValidParts(o)
    ensures var data := Framed(Parts(o));
            && LayoutOf(data, |data|).Some?
            && var l := LayoutOf(data, |data|).value;
            && |l.offsets| == |l.lengths| == |o.blobs| + 1
            && (i < |o.blobs| ==> Section(data, l.offsets[i + 1], l.lengths[i + 1]) == o.blobs[i])
  {
    FramingReadsBack(o);
    var data := Framed(Parts(o));
    if i < |o.blobs| {
      assert IsAt(data, LayoutOf(data, |data|).value.offsets[i + 1], Parts(o)[i + 1]);
    }
  }

  /** Where one blob of an object lies: behind the head and inside the object, whatever bytes the layout was read from; and
      in an object that was framed, exactly where that blob was put. */
  method BlobSection(l: Layout, index: int, ghost data: Bytes, ghost size: nat) returns (s: Option<(nat, nat)>)
    requires LayoutOf(data, size) == Some(l)
    ensures |l.offsets| == |l.lengths| > 0
    ensures s.None? <==> index < 0 || index >= |l.offsets| - 1
    ensures s.Some? ==> l.offsets[0] + l.lengths[0] <= s.value.0 && s.value.0 + s.value.1 <= size
    ensures s.Some? ==> s.value == (l.offsets[index + 1], l.lengths[index + 1])
    ensures forall o :: ValidParts(o) && data == Framed(Parts(o)) && size == |data| ==>
              && (s.Some? <==> 0 <= index < |o.blobs|)
              && (s.Some? ==> Section(data, s.value.0, s.value.1) == o.blobs[index])
  {
    BlobBehindHead(data, size, if index < 0 then 0 else index + 1);
    forall o | ValidParts(o) && data == Framed(Parts(o)) && size == |data|
      ensures |l.offsets| == |o.blobs| + 1
      ensures 0 <= index < |o.blobs| ==> Section(data, l.offsets[index + 1], l.lengths[index + 1]) == o.blobs[index]
    {
      BlobReadsBack(o, if index < 0 then 0 else index);
    }
    if index < 0 || index + 1 >= |l.offsets| {
      return None;
    }
    s := Some((l.offsets[index + 1], l.lengths[index + 1]));
  }
}
