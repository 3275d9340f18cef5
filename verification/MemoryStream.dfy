/** The C++ memory stream: a chain of byte ranges, some of them of buffers the stream has grown out
    of or is still filling, some borrowed from its clients, followed by the range being written. */
module MemoryStream {
  import opened Bytes
  import opened Varint
  import opened Wire
  import opened Input

  datatype Blob = Blob(buffer: array<byte>, offset: nat, length: nat)

  predicate Fits(b: Blob) {
    b.offset + b.length <= b.buffer.Length
  }

  predicate AllFit(blobs: seq<Blob>) {
    forall b :: b in blobs ==> Fits(b)
  }

  function Content(b: Blob): (s: seq<byte>)
    requires Fits(b)
    reads b.buffer
    ensures |s| == b.length
  {
    b.buffer[b.offset..b.offset + b.length]
  }

  function Pieces(blobs: seq<Blob>): (r: seq<seq<byte>>)
    requires AllFit(blobs)
    reads set b | b in blobs :: b.buffer
    ensures |r| == |blobs| && forall i :: 0 <= i < |r| ==> r[i] == Content(blobs[i])
  {
    seq(|blobs|, i requires 0 <= i < |blobs| && AllFit(blobs) reads set b | b in blobs :: b.buffer => Content(blobs[i]))
  }

  function Flat(pieces: seq<seq<byte>>): seq<byte> {
    if pieces == [] then [] else Flat(pieces[..|pieces| - 1]) + pieces[|pieces| - 1]
  }

  /** The bytes of a chain, in order. */
  function Chain(blobs: seq<Blob>): seq<byte>
    requires AllFit(blobs)
    reads set b | b in blobs :: b.buffer
  {
    Flat(Pieces(blobs))
  }

  lemma ChainPush(blobs: seq<Blob>, b: Blob)
    requires AllFit(blobs) && Fits(b)
    ensures AllFit(blobs + [b]) && Chain(blobs + [b]) == Chain(blobs) + Content(b)
  {
    assert Pieces(blobs + [b])[..|blobs|] == Pieces(blobs);
  }

  /** No blob of the chain reaches into `buffer` beyond `end`. */
  predicate Below(blobs: seq<Blob>, buffer: array<byte>, end: nat) {
    forall b :: b in blobs && b.buffer == buffer ==> b.offset + b.length <= end
  }

  /** Writing to a buffer beyond `end` does not touch a chain that stays below: `pieces` was the
      chain, `was` the buffer. */
  lemma ChainKept(blobs: seq<Blob>, buffer: array<byte>, end: nat, pieces: seq<seq<byte>>, was: seq<byte>)
    requires AllFit(blobs) && Below(blobs, buffer, end) && end <= buffer.Length == |was|
    requires buffer[..end] == was[..end] && |pieces| == |blobs|
    requires forall i :: 0 <= i < |blobs| ==>
               pieces[i] == if blobs[i].buffer == buffer then was[blobs[i].offset..blobs[i].offset + blobs[i].length]
                            else Content(blobs[i])
    ensures Pieces(blobs) == pieces
  {
    hide Pieces;
    forall i | 0 <= i < |blobs| ensures Content(blobs[i]) == pieces[i] {
      assert blobs[i] in blobs;
      if blobs[i].buffer == buffer {
        PieceKept(blobs[i], end, was);
      }
    }
  }

  lemma PieceKept(b: Blob, end: nat, was: seq<byte>)
    requires Fits(b) && b.offset + b.length <= end <= b.buffer.Length == |was| && b.buffer[..end] == was[..end]
    ensures Content(b) == was[b.offset..b.offset + b.length]
  {
    PrefixSlice(was, end, b.offset, b.offset + b.length);
    PrefixSlice(b.buffer[..], end, b.offset, b.offset + b.length);
    assert b.buffer[..][..end] == b.buffer[..end];
  }

  lemma PrefixSlice(s: seq<byte>, end: nat, i: nat, j: nat)
    requires i <= j <= end <= |s|
    ensures s[i..j] == s[..end][i..j]
  {
  }

  method Copy(to: array<byte>, at: nat, bytes: seq<byte>)
    requires at + |bytes| <= to.Length
    modifies to
    ensures to[..at] == old(to[..at]) && to[at..at + |bytes|] == bytes
    ensures to[at + |bytes|..] == old(to[at + |bytes|..])
    ensures to[..at + |bytes|] == old(to[..at]) + bytes
  {
    for i := 0 to |bytes|
      invariant to[..at] == old(to[..at]) && to[at..at + i] == bytes[..i]
      invariant to[at + i..] == old(to[at + i..])
    {
      ghost var tail := to[at + i..];
      to[at + i] := bytes[i];
      assert to[at + i + 1..] == tail[1..] == old(to[at + i..])[1..];
    }
    assert to[..at + |bytes|] == to[..at] + to[at..at + |bytes|];
  }

  /** Strict bound on what is left of a `width`-byte value at its `n`-th group. */
  function Room(width: nat, n: nat): nat
    requires n >= 1
  {
    if n == 1 then Modulus(width) else (Room(width, n - 1) + 127) / 128
  }

  function LongestVarUInt(width: nat): nat {
    if width == 2 then 3 else if width == 4 then 5 else 10
  }

  lemma LastRoom()
    ensures Room(2, 3) == 4 && Room(4, 5) == 16 && Room(8, 10) == 2
  {
    assert Room(2, 2) == 512;
    assert Room(4, 3) == 0x4_0000 && Room(4, 4) == 0x800;
    assert Room(8, 2) == 0x200_0000_0000_0000 && Room(8, 3) == 0x4_0000_0000_0000;
    assert Room(8, 4) == 0x800_0000_0000 && Room(8, 5) == 0x10_0000_0000 && Room(8, 6) == 0x2000_0000;
    assert Room(8, 7) == 0x40_0000 && Room(8, 8) == 0x8000 && Room(8, 9) == 0x100;
  }

  lemma EncodedThere(now: seq<byte>, before: seq<byte>, start: nat, next: nat, whole: nat)
    requires Encoded(now, before, start, next, whole)
    ensures |now| == |before| && start <= next <= |now|
    ensures now[..start] == before[..start] && now[start..next] == Encode(whole)
  {
  }

  lemma FirstRoom(width: nat)
    requires width == 2 || width == 4 || width == 8
    ensures Room(width, 1) == Modulus(width) && LongestVarUInt(width) >= 1
  {
  }

  /** A group leaves less than fits in the next one, and the last possible one is the last. */
  lemma NextRoom(width: nat, n: nat, value: nat)
    requires width == 2 || width == 4 || width == 8
    requires 1 <= n <= LongestVarUInt(width) && value < Room(width, n)
    ensures value / 128 < Room(width, n + 1)
    ensures n == LongestVarUInt(width) ==> value < 0x80
  {
    LastRoom();
  }

  lemma EncodedFits(value: nat, width: nat)
    requires (width == 2 || width == 4 || width == 8) && value < Modulus(width)
    ensures |Encode(value)| <= LongestVarUInt(width)
  {
    LengthIsThresholds(value);
  }

  lemma StartsEncoding(was: seq<byte>, end: nat, value: nat, width: nat)
    requires (width == 2 || width == 4 || width == 8) && value < Modulus(width)
    requires end + LongestVarUInt(width) <= |was|
    ensures Encoding(was, was, end, end, value, value)
  {
    EncodedFits(value, width);
    assert [] + Encode(value) == Encode(value);
  }

  lemma LastGroupLength(now: seq<byte>, before: seq<byte>, p: nat, index: nat, value: nat, whole: nat)
    requires Encoding(now, before, p, index, value, whole) && value < 0x80
    ensures |Encode(whole)| == index - p + 1
  {
    assert |now[p..index]| == index - p;
  }

  /** Unrolled in C++: group `n` goes to `p[n - 1]`, and the last possible group is written without
      looking at the value. */
  method WriteUnchecked(to: array<byte>, p: nat, n: nat, value: nat, width: nat, ghost before: seq<byte>,
                        ghost whole: nat)
    returns (length: nat)
    requires width == 2 || width == 4 || width == 8
    requires 1 <= n <= LongestVarUInt(width) && value < Room(width, n) && (n > 1 ==> value > 0)
    requires p + LongestVarUInt(width) <= to.Length
    requires Encoding(to[..], before, p, p + n - 1, value, whole)
    modifies to
    ensures length == |Encode(whole)| && Encoded(to[..], before, p, p + length, whole)
    decreases LongestVarUInt(width) - n
  {
    hide Encoding, Encode, Room, LongestVarUInt, Modulus, Encoded;
    NextRoom(width, n, value);
    if value < 0x80 {
      LastGroupLength(to[..], before, p, p + n - 1, value, whole);
    }
    if n == LongestVarUInt(width) {
      ghost var next := WriteLastGroup(to, p + n - 1, value, before, p, whole);
      length := n;
    } else if value >= 0x80 {
      var next, rest := WriteGroup(to, p + n - 1, value, before, p, whole);
      length := WriteUnchecked(to, p, n + 1, rest, width, before, whole);
    } else {
      ghost var next := WriteLastGroup(to, p + n - 1, value, before, p, whole);
      length := n;
    }
  }

  // ------------------------------------------------------------------- merging

  lemma {:induction false} FlatFirst(pieces: seq<seq<byte>>)
    requires pieces != []
    ensures |Flat(pieces)| >= |pieces[0]|
    ensures |Flat(pieces)| == |pieces[0]| ==> Flat(pieces) == pieces[0]
    decreases |pieces|
  {
    if |pieces| > 1 {
      var prefix := pieces[..|pieces| - 1];
      FlatFirst(prefix);
    } else {
      assert Flat(pieces[..0]) == [] && [] + pieces[0] == pieces[0];
    }
  }

  lemma {:induction false} FlatPrefix(pieces: seq<seq<byte>>, i: nat)
    requires i <= |pieces|
    ensures |Flat(pieces[..i])| <= |Flat(pieces)|
    ensures i < |pieces| ==> Flat(pieces[..i + 1]) == Flat(pieces[..i]) + pieces[i]
    decreases |pieces|
  {
    if i == |pieces| {
      assert pieces[..i] == pieces;
    } else {
      assert pieces[..i + 1][..i] == pieces[..i];
      var prefix := pieces[..|pieces| - 1];
      FlatPrefix(prefix, i);
      assert prefix[..i] == pieces[..i];
    }
  }

  /** The length of a chain, unless it overflows 32 bits. */
  method TotalLength(blobs: seq<Blob>) returns (r: Option<nat>)
    requires AllFit(blobs)
    ensures r == if |Chain(blobs)| < U32 then Some(|Chain(blobs)|) else None
  {
    ghost var pieces := Pieces(blobs);
    assert Chain(blobs) == Flat(pieces);
    hide Flat;
    var length := 0;
    NoPieces();
    assert pieces[..0] == [];
    for i := 0 to |blobs|
      invariant length == |Flat(pieces[..i])| < U32
    {
      assert blobs[i] in blobs && |pieces[i]| == blobs[i].length;
      FlatPrefix(pieces, i);
      length := length + blobs[i].length;
      if length >= U32 {
        FlatPrefix(pieces, i + 1);
        return None;
      }
    }
    assert pieces[..|blobs|] == pieces;
    r := Some(length);
  }

  method CopyChain(blobs: seq<Blob>, to: array<byte>)
    requires AllFit(blobs) && (forall b :: b in blobs ==> b.buffer != to) && to.Length == |Chain(blobs)|
    modifies to
    ensures to[..] == old(Chain(blobs))
  {
    ghost var pieces := Pieces(blobs);
    assert Chain(blobs) == Flat(pieces);
    hide Flat, Pieces, Chain;
    NoPieces();
    assert pieces[..0] == [];
    var offset := 0;
    for i := 0 to |blobs|
      invariant offset == |Flat(pieces[..i])| <= to.Length == |Flat(pieces)|
      invariant to[..offset] == Flat(pieces[..i])
    {
      assert blobs[i] in blobs && Fits(blobs[i]);
      FlatPrefix(pieces, i);
      FlatPrefix(pieces, i + 1);
      Copy(to, offset, Content(blobs[i]));
      offset := offset + blobs[i].length;
    }
    assert pieces[..|blobs|] == pieces;
  }

  /** One blob with the bytes of a whole chain; fails when they are 2^32 or more. */
  method MergeChain(blobs: seq<Blob>) returns (r: Option<Blob>)
    requires AllFit(blobs)
    ensures r.Some? <==> |Chain(blobs)| < U32
    ensures r.Some? ==> Fits(r.value) && Content(r.value) == Chain(blobs)
  {
    ghost var pieces := Pieces(blobs);
    assert Chain(blobs) == Flat(pieces);
    hide Flat;
    var length := TotalLength(blobs);
    if length == None {
      return None;
    }
    if length.value == 0 {
      var none := new byte[0];
      assert Pieces(blobs) == pieces;
      return Some(Blob(none, 0, 0));
    }
    NoPieces();
    assert blobs[0] in blobs;
    if length.value == blobs[0].length {
      FlatFirst(pieces);
      return Some(blobs[0]);
    }
    var merged := CopyMerged(blobs, length.value);
    r := Some(merged);
  }

  /** The chain copied into one buffer. */
  method CopyMerged(blobs: seq<Blob>, length: nat) returns (merged: Blob)
    requires AllFit(blobs) && length == |Chain(blobs)|
    ensures Fits(merged) && Content(merged) == Chain(blobs)
  {
    hide Flat;
    ghost var pieces := Pieces(blobs);
    var buffer := new byte[length];
    assert Pieces(blobs) == pieces;
    CopyChain(blobs, buffer);
    assert Pieces(blobs) == pieces;
    assert buffer[0..length] == buffer[..];
    merged := Blob(buffer, 0, length);
  }

  lemma NoPieces()
    ensures Flat([]) == []
  {
  }

  method Merge(x: Blob, y: Blob) returns (r: Option<Blob>)
    requires Fits(x) && Fits(y)
    ensures r.Some? <==> x.length == 0 || y.length == 0 || x.length + y.length < U32
    ensures r.Some? ==> Fits(r.value) && Content(r.value) == Content(x) + Content(y)
  {
    if x.length == 0 || y.length == 0 {
      assert [] + Content(y) == Content(y) && Content(x) + [] == Content(x);
      return Some(if x.length == 0 then y else x);
    }
    var length := x.length + y.length;
    if length >= U32 {
      return None;
    }
    var buffer := new byte[length];
    ghost var bytes := Content(x) + Content(y);
    Copy(buffer, 0, Content(x));
    Copy(buffer, x.length, Content(y));
    assert buffer[..] == bytes by {
      assert buffer[..] == buffer[..x.length] + buffer[x.length..];
      assert buffer[x.length..] == buffer[x.length..length];
    }
    r := Some(Blob(buffer, 0, length));
    assert Content(r.value) == buffer[..];
  }

  class OutputMemoryStream {
    var buffer: array<byte>
    var bufferSize: nat
    var rangeSize: nat
    var rangeOffset: nat
    const minChainingSize: nat
    const maxChainLength: nat
    var blobs: seq<Blob>

    /** Where the next byte goes. */
    ghost function Tail(): nat
      reads this
    {
      rangeOffset + rangeSize
    }

    /** The chain and the current range are inside their buffers. */
    ghost predicate Sound()
      reads this
    {
      && rangeOffset + rangeSize <= buffer.Length < U32
      && AllFit(blobs)
      && Below(blobs, buffer, rangeOffset + rangeSize)
    }

    /** The stream also knows the size of its buffer. */
    ghost predicate Valid()
      reads this
    {
      Sound() && bufferSize == buffer.Length
    }

    ghost function Range(): (r: seq<byte>)
      requires Sound()
      reads this, buffer
      ensures |r| == rangeSize
    {
      buffer[rangeOffset..rangeOffset + rangeSize]
    }

    /** The current range as a blob. */
    ghost function Current(): Blob
      reads this
    {
      Blob(buffer, rangeOffset, rangeSize)
    }

    /** All bytes written so far. */
    ghost function Contents(): seq<byte>
      requires Sound()
      reads this, buffer, (set b | b in blobs :: b.buffer)
    {
      Chain(blobs) + Range()
    }

    constructor (first: array<byte>, minChaining: nat, maxChain: nat)
      requires first.Length < U32
      ensures Valid() && Contents() == [] && buffer == first && blobs == [] && rangeOffset == 0 && rangeSize == 0
      ensures minChainingSize == minChaining && maxChainLength == maxChain
    {
      buffer, bufferSize, rangeSize, rangeOffset := first, first.Length, 0, 0;
      minChainingSize, maxChainLength := minChaining, maxChain;
      blobs := [];
    }

    /** Fifty percent more, 4096 for the first buffer, and enough for what is left over: the least such. */
    static function Grown(size: nat, left: nat): (r: nat)
      ensures left <= r && (size == 0 ==> 4096 <= r) && 3 * size <= 2 * r + 1
      ensures forall m: nat :: left <= m && (size == 0 ==> 4096 <= m) && 3 * size <= 2 * m + 1 ==> r <= m
    {
      var grown := if size != 0 then size + size / 2 else 4096;
      if grown < left then left else grown
    }

    /** Takes `count` bytes that have been put behind the range into it. */
    method Advance(count: nat, ghost pieces: seq<seq<byte>>, ghost was: seq<byte>)
      requires Valid() && Tail() + count <= bufferSize && |was| == buffer.Length && |pieces| == |blobs|
      requires buffer[..Tail()] == was[..Tail()]
      requires forall i :: 0 <= i < |blobs| ==>
                 pieces[i] == if blobs[i].buffer == buffer then was[blobs[i].offset..blobs[i].offset + blobs[i].length]
                              else Content(blobs[i])
      modifies this`rangeSize
      ensures Valid() && rangeSize == old(rangeSize) + count && Chain(blobs) == Flat(pieces)
      ensures Range() == was[rangeOffset..old(Tail())] + buffer[old(Tail())..old(Tail()) + count]
      ensures Contents() == Flat(pieces) + was[rangeOffset..old(Tail())] + buffer[old(Tail())..old(Tail()) + count]
    {
      ghost var end := Tail();
      rangeSize := rangeSize + count;
      ChainKept(blobs, buffer, end, pieces, was);
      assert buffer[rangeOffset..end] == buffer[..end][rangeOffset..]
          == was[..end][rangeOffset..] == was[rangeOffset..end];
      assert Range() == buffer[rangeOffset..end] + buffer[end..end + count];
    }

    /** Appends to the current range. */
    method Append(value: seq<byte>)
      requires Valid() && |value| <= bufferSize - Tail()
      modifies this`rangeSize, buffer
      ensures Valid() && rangeSize == old(rangeSize) + |value|
      ensures Contents() == old(Contents()) + value && Chain(blobs) == old(Chain(blobs))
      ensures Range() == old(Range()) + value
      ensures buffer[..old(Tail())] == old(buffer[..Tail()])
    {
      hide AllFit, Below, Pieces, Flat, Fits;
      ghost var pieces, was, range := Pieces(blobs), buffer[..], Range();
      assert Chain(blobs) == Flat(pieces) && was[rangeOffset..rangeOffset + rangeSize] == range;
      Copy(buffer, rangeOffset + rangeSize, value);
      Advance(|value|, pieces, was);
      assert Flat(pieces) + range + value == Flat(pieces) + (range + value);
    }

    /** There must be room for the longest encoding of the width. */
    method WriteVariableUnsignedFast(value: nat, width: nat)
      requires Valid() && (width == 2 || width == 4 || width == 8) && value < Modulus(width)
      requires Tail() + LongestVarUInt(width) <= bufferSize
      modifies this`rangeSize, buffer
      ensures Valid()
      ensures Contents() == old(Contents()) + Encode(value)
      ensures buffer[..old(Tail())] == old(buffer[..Tail()])
    {
      hide Flat, AllFit, Below, Fits, Modulus, LongestVarUInt;
      ghost var pieces, was, written := Pieces(blobs), buffer[..], Contents();
      assert written == Flat(pieces) + was[rangeOffset..Tail()];
      hide Pieces, Contents, Range, Chain;
      var length := PutEncoding(value, width);
      Advance(length, pieces, was);
    }

    /** Puts the encoding behind the range. */
    method PutEncoding(value: nat, width: nat) returns (length: nat)
      requires Tail() + LongestVarUInt(width) <= buffer.Length
      requires (width == 2 || width == 4 || width == 8) && value < Modulus(width)
      modifies buffer
      ensures Tail() + length <= buffer.Length
      ensures buffer[..Tail()] == old(buffer[..Tail()])
      ensures buffer[Tail()..Tail() + length] == Encode(value)
    {
      FirstRoom(width);
      hide Encode, Encoding, Encoded, Room, Modulus, LongestVarUInt;
      ghost var was, end := buffer[..], Tail();
      StartsEncoding(was, end, value, width);
      length := WriteUnchecked(buffer, rangeOffset + rangeSize, 1, value, width, was, value);
      EncodedThere(buffer[..], was, end, end + length, value);
      assert buffer[..][..end] == buffer[..end] && was[..end] == old(buffer[..Tail()]);
      assert buffer[..][end..end + length] == buffer[end..end + length];
    }

    /** Puts the current range on the chain, unless it is empty. The range itself is left as it is. */
    method Snap()
      requires Valid()
      modifies this`blobs
      ensures Valid() && Chain(blobs) == old(Contents()) && Range() == old(Range())
      ensures blobs == old(blobs) + if old(rangeSize) > 0 then [old(Current())] else []
    {
      if rangeSize > 0 {
        var range := Blob(buffer, rangeOffset, rangeSize);
        ChainPush(blobs, range);
        ghost var pieces := Pieces(blobs + [range]);
        blobs := blobs + [range];
        assert Pieces(blobs) == pieces;
      } else {
        assert Chain(blobs) + [] == Chain(blobs);
      }
    }

    /** Raises the size, ahead of the allocation of a new buffer. */
    method RaiseSize(left: nat)
      requires Sound()
      modifies this`bufferSize
      ensures Sound() && bufferSize == Grown(old(bufferSize), left)
      ensures Chain(blobs) == old(Chain(blobs)) && Contents() == old(Contents()) && Range() == old(Range())
    {
      ghost var pieces := Pieces(blobs);
      assert Chain(blobs) == Flat(pieces);
      bufferSize := Grown(bufferSize, left);
      assert Pieces(blobs) == pieces && Chain(blobs) == Flat(pieces);
    }

    /** A new buffer with `value` as the range; the chain must have the old one already. */
    method StartRange(value: seq<byte>)
      requires Sound() && |value| <= bufferSize < U32
      modifies this`buffer, this`rangeOffset, this`rangeSize
      ensures Valid() && fresh(buffer) && Contents() == old(Chain(blobs)) + value && Range() == value
      ensures rangeOffset == 0 && rangeSize == |value|
    {
      ghost var pieces := Pieces(blobs);
      assert Chain(blobs) == Flat(pieces);
      buffer := new byte[bufferSize];
      rangeOffset, rangeSize := 0, |value|;
      assert Pieces(blobs) == pieces;
      Copy(buffer, 0, value);
      assert Pieces(blobs) == pieces && Chain(blobs) == Flat(pieces);
      assert Range() == value;
    }

    /** Fails when the buffer is full and either has grown beyond 2^31 - 1 bytes or cannot be
        allocated anew; `supply` is the number of allocations that will succeed. The part that
        still fit is written then, but the range that has been put on the chain also stays the
        current range, so that all of its bytes count twice. A failed allocation comes after the
        size of the buffer has been raised, which then is wrong unless it stayed the same. */
    method Write(value: seq<byte>, supply: nat) returns (ok: bool)
      requires Valid() && |value| < U32
      modifies this, buffer
      ensures Sound()
      ensures ok == (|value| <= old(bufferSize - Tail()) || (old(bufferSize) <= INT_MAX && supply > 0))
      ensures Valid()
         <==> ok || old(bufferSize) > INT_MAX
              || Grown(old(bufferSize), |value| - old(bufferSize - Tail())) == old(bufferSize)
      ensures ok ==> Contents() == old(Contents()) + value
      ensures !ok ==> buffer == old(buffer) && rangeOffset == old(rangeOffset)
      ensures !ok ==> Range() == old(Range()) + value[..old(bufferSize - Tail())]
      ensures !ok ==>
                bufferSize == if old(bufferSize) > INT_MAX then old(bufferSize)
                              else Grown(old(bufferSize), |value| - old(bufferSize - Tail()))
      ensures !ok ==> Contents() == old(Contents()) + value[..old(bufferSize - Tail())] + Range()
      ensures Contents() == old(Contents()) + (if ok then value else value[..old(bufferSize - Tail())])
         <==> ok || old(bufferSize) == old(rangeOffset)
      ensures |value| <= old(bufferSize - Tail()) ==>
                && buffer == old(buffer) && blobs == old(blobs) && bufferSize == old(bufferSize)
                && rangeOffset == old(rangeOffset) && rangeSize == old(rangeSize) + |value|
                && Range() == old(Range()) + value
      ensures ok && |value| > old(bufferSize - Tail()) ==>
                && fresh(buffer) && rangeOffset == 0 && rangeSize == |value| - old(bufferSize - Tail())
                && bufferSize == Grown(old(bufferSize), rangeSize)
                && Range() == value[old(bufferSize - Tail())..]
      ensures old(blobs) <= blobs && old(buffer)[..old(Tail())] == old(buffer[..Tail()])
    {
      hide Chain, Pieces, AllFit, Below, Grown, Contents, Range;
      var sizePart := bufferSize - rangeSize - rangeOffset;
      if sizePart > |value| {
        sizePart := |value|;
      }
      Append(value[..sizePart]);
      ok := true;
      if |value| != sizePart {
        WrittenOn(old(Contents()), value, sizePart, Range());
        ok := WriteOver(value[sizePart..], supply);
      } else {
        assert value[..sizePart] == value;
      }
    }

    /** Writes on when the buffer is full. */
    method WriteOver(value: seq<byte>, supply: nat) returns (ok: bool)
      requires Valid() && 0 < |value| < U32 && Tail() == bufferSize
      modifies this
      ensures Sound()
      ensures ok == (old(bufferSize) <= INT_MAX && supply > 0)
      ensures Valid() <==> ok || old(bufferSize) > INT_MAX || Grown(old(bufferSize), |value|) == old(bufferSize)
      ensures Contents() == old(Contents()) + if ok then value else Range()
      ensures ok ==> fresh(buffer) && rangeOffset == 0 && Range() == value
      ensures bufferSize
           == if old(bufferSize) > INT_MAX then old(bufferSize) else Grown(old(bufferSize), |value|)
      ensures !ok ==> buffer == old(buffer) && rangeOffset == old(rangeOffset) && rangeSize == old(rangeSize)
      ensures !ok ==> Range() == old(Range())
      ensures old(blobs) <= blobs && old(buffer)[..old(Tail())] == old(buffer[..Tail()])
    {
      hide Chain, Pieces, AllFit, Below;
      Snap();
      if bufferSize > INT_MAX {
        return false;
      }
      RaiseSize(|value|);
      if supply == 0 {
        return false;
      }
      StartRange(value);
      ok := true;
    }

    /** Small blobs are copied; others are chained behind the current range, which then starts
        anew where it ended. Copying fails as `Write` does. */
    method WriteBlob(b: Blob, supply: nat) returns (ok: bool)
      requires Valid() && Fits(b) && b.length < U32
      requires b.buffer == buffer ==> b.offset + b.length <= Tail()
      modifies this, buffer
      ensures Sound()
      ensures var copied := b.length < minChainingSize || |old(blobs)| >= maxChainLength;
              ok == (!copied || b.length <= old(bufferSize - Tail()) || (old(bufferSize) <= INT_MAX && supply > 0))
      ensures Valid()
         <==> ok || old(bufferSize) > INT_MAX
              || Grown(old(bufferSize), b.length - old(bufferSize - Tail())) == old(bufferSize)
      ensures ok ==> Contents() == old(Contents()) + old(Content(b))
      ensures !ok ==> buffer == old(buffer) && rangeOffset == old(rangeOffset)
      ensures !ok ==> Range() == old(Range()) + old(Content(b))[..old(bufferSize - Tail())]
      ensures !ok ==> Contents() == old(Contents()) + old(Content(b))[..old(bufferSize - Tail())] + Range()
      ensures b.length >= minChainingSize && |old(blobs)| < maxChainLength ==>
                && buffer == old(buffer) && rangeSize == 0 && Tail() == old(Tail())
                && blobs == old(blobs) + (if old(rangeSize) > 0 then [old(Current())] else []) + [b]
      ensures old(blobs) <= blobs && old(buffer)[..old(Tail())] == old(buffer[..Tail()])
    {
      hide Flat;
      if b.length < minChainingSize || |blobs| >= maxChainLength {
        ok := Write(Content(b), supply);
        return;
      }
      Snap();
      Attach(b);
      ok := true;
    }

    /** Ends the current range, which must be on the chain, and chains `b`. */
    method Attach(b: Blob)
      requires Valid() && Fits(b) && (b.buffer == buffer ==> b.offset + b.length <= Tail())
      modifies this`rangeOffset, this`rangeSize, this`blobs
      ensures Valid() && blobs == old(blobs) + [b] && rangeSize == 0 && Tail() == old(Tail())
      ensures Contents() == old(Chain(blobs)) + Content(b)
    {
      ChainPush(blobs, b);
      ghost var pieces := Pieces(blobs + [b]);
      rangeOffset, rangeSize := rangeOffset + rangeSize, 0;
      blobs := blobs + [b];
      assert Pieces(blobs) == pieces;
    }

    /** The whole content as a chain. */
    method GetBuffers() returns (buffers: seq<Blob>)
      requires Valid()
      ensures AllFit(buffers) && Chain(buffers) == Contents()
    {
      buffers := blobs;
      if rangeSize > 0 {
        ChainPush(blobs, Blob(buffer, rangeOffset, rangeSize));
        buffers := blobs + [Blob(buffer, rangeOffset, rangeSize)];
      } else {
        assert Chain(blobs) + [] == Chain(blobs);
      }
    }

    /** The whole content as one blob. */
    method GetBuffer() returns (r: Option<Blob>)
      requires Valid()
      ensures r.Some? <==> |Contents()| < U32
      ensures r.Some? ==> Fits(r.value) && Content(r.value) == Contents()
    {
      hide Flat;
      var current := Blob(buffer, rangeOffset, rangeSize);
      ghost var pieces := Pieces(blobs);
      var chain := MergeChain(blobs);
      assert Pieces(blobs) == pieces;
      if chain == None {
        return None;
      }
      r := Merge(chain.value, current);
      assert Pieces(blobs) == pieces;
    }

    /** How many of `length` bytes, written one by one into a buffer of `size` bytes with `room` left,
        get through with `supply` allocations. */
    static function GetThrough(size: nat, room: nat, length: nat, supply: nat): (n: nat)
      ensures n <= length && (length <= room ==> n == length)
      ensures length > room && (size > INT_MAX || supply == 0) ==> n == room
      decreases length
    {
      if length <= room then length
      else if size > INT_MAX || supply == 0 then room
      else room + 1 + GetThrough(Grown(size, 1), Grown(size, 1) - 1, length - room - 1, supply - 1)
    }

    /** Whether a failed write of one byte leaves the size of the buffer right: it is not raised, or raised
        to what it was. */
    static predicate StaysSized(size: nat) {
      size > INT_MAX || Grown(size, 1) == size
    }

    /** Near the end of the buffer one byte is written at a time, each of which may start a new
        buffer; it fails in the middle as `Write` does. */
    method WriteVariableUnsigned(value: nat, width: nat, supply: nat) returns (ok: bool)
      requires Valid() && (width == 2 || width == 4 || width == 8) && value < Modulus(width)
      modifies this, buffer
      ensures Sound() && (Valid() <==> ok || StaysSized(buffer.Length))
      ensures buffer == old(buffer) || fresh(buffer)
      ensures !ok ==> Tail() == buffer.Length
      ensures var n := GetThrough(old(bufferSize), old(bufferSize - Tail()), |Encode(value)|, supply);
              && GotThrough(Encode(value), n, old(bufferSize - Tail()), old(bufferSize) > INT_MAX || supply == 0,
                            old(Contents()), old(Range()), old(rangeOffset),
                            ok, buffer == old(buffer), Contents(), Range(), rangeOffset)
              && (Contents() == old(Contents()) + Encode(value)[..n]
                  <==> ok || ((old(bufferSize) > INT_MAX || supply == 0) && old(bufferSize) == old(rangeOffset)))
      ensures old(blobs) <= blobs && old(buffer)[..old(Tail())] == old(buffer[..Tail()])
      decreases value, 1
    {
      hide AllFit, Below, Contents, Range, GotThrough, StaysSized;
      EncodedFits(value, width);
      ghost var stuck := bufferSize > INT_MAX || supply == 0;
      ghost var n := GetThrough(bufferSize, bufferSize - Tail(), |Encode(value)|, supply);
      if width * 8 / 7 + rangeSize + rangeOffset < bufferSize {
        WriteVariableUnsignedFast(value, width);
        ok := true;
        AllThrough(Encode(value), old(bufferSize - Tail()), stuck, old(Contents()), old(Range()), old(rangeOffset),
                   buffer == old(buffer), Contents(), Range(), rangeOffset);
      } else if value >= 0x80 {
        ok := WriteGroupByGroup(value, width, supply);
      } else {
        ok := WriteByte(value, supply);
        OneThrough(value, n, old(bufferSize - Tail()), stuck, old(Contents()), old(Range()), old(rangeOffset),
                   ok, buffer == old(buffer), Contents(), Range(), rangeOffset);
      }
      TwiceUnless(Encode(value), n, old(bufferSize - Tail()), stuck, old(Contents()), old(Range()), old(rangeOffset),
                  ok, buffer == old(buffer), Contents(), Range(), rangeOffset);
    }

    /** Of the bytes `e`, written one by one behind `written`, the first `n` have got through, which are all
        if `ok`. Otherwise the current range counts twice: if the stream is `stuck` with its first buffer,
        which has `room`, it is the range there `was` and what fit; if not, the buffer is not the `same`
        and its range is the last of the bytes that got through. */
    static ghost predicate GotThrough(e: seq<byte>, n: nat, room: nat, stuck: bool,
                                      written: seq<byte>, was: seq<byte>, offset: nat,
                                      ok: bool, same: bool, contents: seq<byte>, range: seq<byte>, offset': nat) {
      && n <= |e| && (ok <==> n == |e|)
      && contents == written + (if ok then e else e[..n] + range)
      && (!ok ==> (same <==> stuck))
      && (!ok && same ==> offset' == offset && n == room && range == was + e[..room])
      && (!ok && !same ==> offset' == 0 && 0 < |range| <= n && range == e[n - |range|..n])
    }

    /** `Write` of one byte. */
    method WriteByte(b: byte, supply: nat) returns (ok: bool)
      requires Valid()
      modifies this, buffer
      ensures Sound() && (Valid() <==> ok || StaysSized(buffer.Length))
      ensures ok == (old(bufferSize > Tail()) || (old(bufferSize) <= INT_MAX && supply > 0))
      ensures Contents() == old(Contents()) + if ok then [b] else Range()
      ensures old(bufferSize > Tail()) ==>
                && buffer == old(buffer) && rangeOffset == old(rangeOffset) && Tail() == old(Tail()) + 1
                && Range() == old(Range()) + [b]
      ensures ok && old(bufferSize == Tail()) ==>
                && fresh(buffer) && bufferSize == Grown(old(bufferSize), 1) && Tail() == 1 && rangeOffset == 0
                && Range() == [b]
      ensures !ok ==>
                && buffer == old(buffer) && rangeOffset == old(rangeOffset) && Tail() == buffer.Length
                && Range() == old(Range())
      ensures old(blobs) <= blobs && old(buffer)[..old(Tail())] == old(buffer[..Tail()])
    {
      hide Chain, Pieces, Flat, AllFit, Below, Grown;
      ghost var written := Contents();
      ok := Write([b], supply);
      assert !ok ==> [b][..0] == [];
      assert written + [] == written;
    }

    method WriteGroupByGroup(value: nat, width: nat, supply: nat) returns (ok: bool)
      requires Valid() && (width == 2 || width == 4 || width == 8) && 0x80 <= value < Modulus(width)
      modifies this, buffer
      ensures Sound() && (Valid() <==> ok || StaysSized(buffer.Length))
      ensures buffer == old(buffer) || fresh(buffer)
      ensures !ok ==> Tail() == buffer.Length
      ensures var n := GetThrough(old(bufferSize), old(bufferSize - Tail()), |Encode(value)|, supply);
              GotThrough(Encode(value), n, old(bufferSize - Tail()), old(bufferSize) > INT_MAX || supply == 0,
                         old(Contents()), old(Range()), old(rangeOffset),
                         ok, buffer == old(buffer), Contents(), Range(), rangeOffset)
      ensures old(blobs) <= blobs && old(buffer)[..old(Tail())] == old(buffer[..Tail()])
      decreases value, 0
    {
      hide AllFit, Below, Encode, GetThrough, GotThrough, Grown, Contents, Range, StaysSized, Modulus;
      ghost var e, b := Encode(value), [value % 128 + 128];
      assert e == b + Encode(value / 128) by { FirstGroupOf(value); }
      ghost var written, was, offset := Contents(), Range(), rangeOffset;
      GetThroughOne(bufferSize, bufferSize - Tail(), |e|, supply);
      var grows := rangeOffset + rangeSize == bufferSize;
      ok := WriteByte(value % 128 + 128, supply);
      if !ok {
        NoneThrough(e, true, written, was, offset, Contents(), Range(), rangeOffset);
        return;
      }
      ok := WriteRest(value / 128, width, if grows then supply - 1 else supply, b, grows, written, was, offset);
    }

    /** The groups after the first, `b`, which is in a new buffer if `grows`. */
    method WriteRest(value: nat, width: nat, supply: nat, ghost b: seq<byte>, ghost grows: bool,
                     ghost written: seq<byte>, ghost was: seq<byte>, ghost offset: nat)
      returns (ok: bool)
      requires Valid() && (width == 2 || width == 4 || width == 8) && value < Modulus(width)
      requires |b| == 1 && Contents() == written + b
      requires Range() == (if grows then b else was + b) && rangeOffset == if grows then 0 else offset
      modifies this, buffer
      ensures Sound() && (Valid() <==> ok || StaysSized(buffer.Length))
      ensures buffer == old(buffer) || fresh(buffer)
      ensures !ok ==> Tail() == buffer.Length
      ensures var n := GetThrough(old(bufferSize), old(bufferSize - Tail()), |Encode(value)|, supply);
              GotThrough(b + Encode(value), n + 1, if grows then 0 else old(bufferSize - Tail()) + 1,
                         !grows && (old(bufferSize) > INT_MAX || supply == 0), written, was, offset,
                         ok, !grows && buffer == old(buffer), Contents(), Range(), rangeOffset)
      ensures old(blobs) <= blobs && old(buffer)[..old(Tail())] == old(buffer[..Tail()])
      decreases value, 2
    {
      hide AllFit, Below, Encode, GetThrough, GotThrough, Grown, Contents, Range, StaysSized, Modulus;
      ghost var rest, room, stuck := Encode(value), bufferSize - Tail(), bufferSize > INT_MAX || supply == 0;
      ghost var n, first := GetThrough(bufferSize, room, |rest|, supply), buffer;
      ok := WriteVariableUnsigned(value, width, supply);
      if grows {
        ThroughNew(b, rest, n, room, stuck, written, was, offset, ok, buffer == first, Contents(), Range(),
                   rangeOffset);
      } else {
        ThroughMore(b, rest, n, room, stuck, written, was, offset, ok, buffer == first, Contents(), Range(),
                    rangeOffset);
      }
    }
  }

  lemma AllThrough(e: seq<byte>, room: nat, stuck: bool, written: seq<byte>, was: seq<byte>, offset: nat,
                   same: bool, contents: seq<byte>, range: seq<byte>, offset': nat)
    requires contents == written + e
    ensures OutputMemoryStream.GotThrough(e, |e|, room, stuck, written, was, offset, true, same, contents,
                                          range, offset')
  {
  }

  lemma NoneThrough(e: seq<byte>, stuck: bool, written: seq<byte>, was: seq<byte>, offset: nat,
                    contents: seq<byte>, range: seq<byte>, offset': nat)
    requires e != [] && stuck && contents == written + range && range == was && offset' == offset
    ensures OutputMemoryStream.GotThrough(e, 0, 0, stuck, written, was, offset, false, true, contents, range, offset')
  {
    assert e[..0] + range == range && was + e[..0] == was;
  }

  lemma OneThrough(value: nat, n: nat, room: nat, stuck: bool, written: seq<byte>, was: seq<byte>, offset: nat,
                   ok: bool, same: bool, contents: seq<byte>, range: seq<byte>, offset': nat)
    requires value < 0x80 && n == (if room > 0 || !stuck then 1 else 0) && (ok <==> n == 1)
    requires contents == written + if ok then [value] else range
    requires !ok ==> same && range == was && offset' == offset
    ensures OutputMemoryStream.GotThrough(Encode(value), n, room, stuck, written, was, offset, ok, same, contents,
                                          range, offset')
  {
    if !ok {
      NoneThrough(Encode(value), stuck, written, was, offset, contents, range, offset');
    }
  }

  /** A byte that fit, and the `rest`. */
  lemma ThroughMore(b: seq<byte>, rest: seq<byte>, n: nat, room: nat, stuck: bool, written: seq<byte>, was: seq<byte>,
                    offset: nat, ok: bool, same: bool, contents: seq<byte>, range: seq<byte>, offset': nat)
    requires |b| == 1
    requires OutputMemoryStream.GotThrough(rest, n, room, stuck, written + b, was + b, offset, ok, same, contents,
                                           range, offset')
    ensures OutputMemoryStream.GotThrough(b + rest, n + 1, room + 1, stuck, written, was, offset, ok, same, contents,
                                          range, offset')
  {
    var e := b + rest;
    assert e[..n + 1] == b + rest[..n];
    assert written + b + rest == written + e;
    assert written + b + (rest[..n] + range) == written + (e[..n + 1] + range);
    if !ok && same {
      assert was + b + rest[..room] == was + e[..room + 1];
    } else if !ok {
      assert e[n + 1 - |range|..n + 1] == rest[n - |range|..n];
    }
  }

  /** A byte that is the first in a new buffer, and the `rest`. */
  lemma ThroughNew(b: seq<byte>, rest: seq<byte>, n: nat, room: nat, stuck: bool, written: seq<byte>, was: seq<byte>,
                   offset: nat, ok: bool, same: bool, contents: seq<byte>, range: seq<byte>, offset': nat)
    requires |b| == 1
    requires OutputMemoryStream.GotThrough(rest, n, room, stuck, written + b, b, 0, ok, same, contents, range, offset')
    ensures OutputMemoryStream.GotThrough(b + rest, n + 1, 0, false, written, was, offset, ok, false, contents, range,
                                          offset')
  {
    var e := b + rest;
    assert e[..n + 1] == b + rest[..n];
    assert written + b + rest == written + e;
    assert written + b + (rest[..n] + range) == written + (e[..n + 1] + range);
    if !ok && same {
      assert e[0..n + 1] == range;
    } else if !ok {
      assert e[n + 1 - |range|..n + 1] == rest[n - |range|..n];
    }
  }

  lemma WrittenOn(written: seq<byte>, value: seq<byte>, n: nat, range: seq<byte>)
    requires n <= |value|
    ensures written + value[..n] + value[n..] == written + value
    ensures written + value[..n] + range == written + value[..n] <==> |range| == 0
  {
    assert value[..n] + value[n..] == value;
    assert |written + value[..n] + range| == |written + value[..n]| + |range|;
  }

  /** The range counts twice unless it is empty. */
  lemma TwiceUnless(e: seq<byte>, n: nat, room: nat, stuck: bool, written: seq<byte>, was: seq<byte>, offset: nat,
                    ok: bool, same: bool, contents: seq<byte>, range: seq<byte>, offset': nat)
    requires OutputMemoryStream.GotThrough(e, n, room, stuck, written, was, offset, ok, same, contents, range, offset')
    ensures n <= |e| && (contents == written + e[..n] <==> ok || range == [])
    ensures !ok && !stuck ==> range != []
    ensures !ok && stuck ==> same && offset' == offset
  {
    assert ok ==> e[..n] == e;
    assert |written + (e[..n] + range)| == |written + e[..n]| + |range|;
    assert range == [] ==> e[..n] + range == e[..n];
  }

  lemma GetThroughOne(size: nat, room: nat, length: nat, supply: nat)
    requires length > 0
    ensures OutputMemoryStream.GetThrough(size, room, length, supply)
         == if room > 0 then 1 + OutputMemoryStream.GetThrough(size, room - 1, length - 1, supply)
            else if size > INT_MAX || supply == 0 then 0
            else
              var grown := OutputMemoryStream.Grown(size, 1);
              1 + OutputMemoryStream.GetThrough(grown, grown - 1, length - 1, supply - 1)
  {
  }

  lemma FirstGroupOf(value: nat)
    requires value >= 0x80
    ensures Encode(value) == [value % 128 + 128] + Encode(value / 128)
  {
  }

  /** A write that fails and leaves twice as much behind as it wrote: 2^31 bytes go into a first
      buffer of that size, one more does not, and the content is those 2^31 bytes two times. */
  method FailedWrite() returns (s: OutputMemoryStream, written: seq<byte>)
    ensures s.Valid() && |written| == 0x8000_0000 && s.Contents() == written + written
  {
    hide OutputMemoryStream.Contents, OutputMemoryStream.Grown, AllFit, Below;
    var first := new byte[0x8000_0000];
    s := new OutputMemoryStream(first, 32, 0xFFFF_FFFF);
    var value: seq<byte> := seq(0x8000_0001, _ => 7);
    written := value[..0x8000_0000];
    var ok := s.Write(value, 1);
    assert [] + written == written;
  }

  /** A write that fails for want of memory: the third byte does not fit in a first buffer of two, the
      size is raised to three, no buffer is allocated, and the stream is of no more use. */
  method FailedAllocation() returns (s: OutputMemoryStream)
    ensures s.Sound() && !s.Valid() && s.bufferSize == 3 && s.buffer.Length == 2
  {
    hide OutputMemoryStream.Contents, AllFit, Below;
    var first := new byte[2];
    s := new OutputMemoryStream(first, 32, 0xFFFF_FFFF);
    var ok := s.Write([1, 2, 3], 0);
  }
}
