/** The skipper of the C++ reader of the compact protocols: it passes over every number of more than
    one byte as if it were a 64-bit one, and over a run of fixed-size items in one step. */
module Skipper {
  import opened Bytes
  import opened Varint
  import opened Input
  import opened Wire
  import opened Grammar
  import opened Reader
  import RoundTrip

  // -------------------------------------------- numbers read at one width, skipped at another

  /** A variable-length integer that ends at `end`, in a byte without continuation flag. */
  ghost predicate Ends(data: seq<byte>, pos: nat, end: nat) {
    pos < end <= |data| && data[end - 1] < 128 && forall i :: pos <= i < end - 1 ==> data[i] >= 128
  }

  lemma {:induction false} GroupsEnd(data: seq<byte>, pos: nat, k: nat)
    requires k >= 1 && pos + k <= |data|
    ensures var end := Groups(data, pos, k).1;
            && (forall i :: pos <= i < end - 1 ==> data[i] >= 128)
            && (data[end - 1] < 128 || end == pos + k)
    decreases k
  {
    if k > 1 && data[pos] >= 128 {
      GroupsEnd(data, pos + 1, k - 1);
    }
  }

  lemma {:induction false} CheckedEnd(data: seq<byte>, pos: nat, k: nat)
    requires k >= 1 && Checked(data, pos, k).Some?
    ensures var end := Checked(data, pos, k).value.1;
            && (forall i :: pos <= i < end - 1 ==> data[i] >= 128)
            && (data[end - 1] < 128 || end == pos + k)
    decreases k
  {
    if k > 1 && data[pos] >= 128 {
      CheckedEnd(data, pos + 1, k - 1);
    }
  }

  lemma {:induction false} CheckedReaches(data: seq<byte>, pos: nat, k: nat, end: nat)
    requires Ends(data, pos, end) && end <= pos + k
    ensures Checked(data, pos, k).Some?
    decreases k
  {
    if data[pos] >= 128 {
      CheckedReaches(data, pos + 1, k - 1, end);
    }
  }

  /** How many groups are read at most. */
  function Longest(width: nat): nat {
    if width == 2 then 3 else if width == 4 then 5 else 10
  }

  lemma ReadVarEnd(data: seq<byte>, pos: nat, width: nat)
    requires (width == 2 || width == 4 || width == 8) && ReadVar(data, pos, width).Some?
    ensures var end := ReadVar(data, pos, width).value.1;
            && end <= pos + Longest(width)
            && (forall i :: pos <= i < end - 1 ==> data[i] >= 128)
            && (data[end - 1] < 128 || end == pos + Longest(width))
  {
    if pos + Longest(width) > |data| {
      CheckedEnd(data, pos, 10);
    } else {
      GroupsEnd(data, pos, if width == 8 then 9 else Longest(width));
    }
  }

  /** Skipping a number of two, four or eight bytes as a 64-bit one ends where reading it ends exactly
      when the number is a 64-bit one or its last byte carries no continuation flag. */
  lemma SkipsNumber(data: seq<byte>, pos: nat, width: nat)
    requires (width == 2 || width == 4 || width == 8) && ReadVar(data, pos, width).Some?
    ensures var end := ReadVar(data, pos, width).value.1;
            var skipped := ReadVar(data, pos, 8);
            skipped.Some? && skipped.value.1 == end <==> width == 8 || data[end - 1] < 128
  {
    hide ReadVar;
    var end := ReadVar(data, pos, width).value.1;
    ReadVarEnd(data, pos, width);
    if data[end - 1] < 128 {
      Reaches(data, pos, end);
    }
    if ReadVar(data, pos, 8).Some? {
      ReadVarEnd(data, pos, 8);
    }
  }

  lemma Reaches(data: seq<byte>, pos: nat, end: nat)
    requires Ends(data, pos, end) && end <= pos + 10
    ensures ReadVar(data, pos, 8).Some?
  {
    CheckedReaches(data, pos, 10, end);
  }

  /** A 16-bit number whose third byte is flagged is read in three bytes and skipped in four. */
  lemma Overrun()
    ensures ReadVar([0x80, 0x80, 0x80, 1], 0, 2) == Some((0, 3))
    ensures ReadVar([0x80, 0x80, 0x80, 1], 0, 8) == Some((0x20_0000, 4))
  {
    var data: seq<byte> := [0x80, 0x80, 0x80, 1];
    assert Checked(data, 3, 7) == Some((1, 4));
    assert Checked(data, 2, 8) == Some((128, 4));
    assert Checked(data, 1, 9) == Some((0x4000, 4));
    assert Groups(data, 2, 1) == (0x80, 3);
    assert Groups(data, 1, 2) == (0x4000, 3);
  }

  // ------------------------------------------------------------ payloads that are skipped rightly

  /** No 16-bit or 32-bit number in the value at `pos` ends in a flagged byte. What is inside a version
      2 struct does not matter: the skipper does not look at it. */
  ghost predicate Ended(p: Protocol, t: byte, data: seq<byte>, pos: nat)
    decreases if pos < |data| then |data| - pos else 0, 1, 0
  {
    if Numeric(t) then
      Size(t) == 1 || Size(t) == 8 ||
      match ReadVar(data, pos, Size(t))
      case None => true
      case Some((_, next)) => data[next - 1] < 128
    else if t == BT_LIST || t == BT_SET then
      match ParseListHeader(p, data, pos)
      case None => true
      case Some((elem, count, start)) => EndedItems(p, elem, count, data, start)
    else if t == BT_MAP then
      match ParseMapHeader(data, pos)
      case None => true
      case Some((key, elem, count, start)) => EndedEntries(p, key, elem, count, data, start)
    else t == BT_STRUCT && p != CompactV2 ==> EndedBody(p, data, pos)
  }

  ghost predicate EndedItems(p: Protocol, elem: byte, count: nat, data: seq<byte>, pos: nat)
    decreases if pos < |data| then |data| - pos else 0, 2, count
  {
    count == 0 ||
    (Ended(p, elem, data, pos) &&
     match ParseValue(p, elem, data, pos)
     case None => true
     case Some((_, mid)) => EndedItems(p, elem, count - 1, data, mid))
  }

  ghost predicate EndedEntries(p: Protocol, key: byte, elem: byte, count: nat, data: seq<byte>, pos: nat)
    decreases if pos < |data| then |data| - pos else 0, 2, count
  {
    count == 0 ||
    (Ended(p, key, data, pos) &&
     match ParseValue(p, key, data, pos)
     case None => true
     case Some((_, mid)) =>
       Ended(p, elem, data, mid) &&
       match ParseValue(p, elem, data, mid)
       case None => true
       case Some((_, after)) => EndedEntries(p, key, elem, count - 1, data, after))
  }

  ghost predicate EndedBody(p: Protocol, data: seq<byte>, pos: nat)
    decreases if pos < |data| then |data| - pos else 0, 0, 1
  {
    match ParseFieldHeader(p, data, pos)
    case None => true
    case Some((t, _, start)) => EndedAfterHeader(p, t, data, start)
  }

  ghost predicate EndedAfterHeader(p: Protocol, t: byte, data: seq<byte>, pos: nat)
    decreases if pos < |data| then |data| - pos else 0, 2, 0
  {
    if t == BT_STOP then true
    else if t == BT_STOP_BASE then EndedBody(p, data, pos)
    else
      Ended(p, t, data, pos) &&
      match ParseValue(p, t, data, pos)
      case None => true
      case Some((_, mid)) => EndedBody(p, data, mid)
  }

  // ------------------------------------------------------------ what a writer writes is such a payload

  /** Every encoding is skipped rightly, wherever it stands. */
  lemma {:induction false} WrittenEnds(p: Protocol, v: Value, data: seq<byte>, pos: nat)
    requires p != Fast && Valid(v) && |data| < U32
    requires At(data, pos, EncodeValue(p, v))
    ensures Ended(p, TypeOf(v), data, pos)
    decreases v
  {
    hide ParseListHeader, ParseMapHeader, EncodeListHeader, EncodeMapHeader, EncodeNum, EndedItems, EndedEntries,
      EndedBody, EncodeItems, EncodeEntries, EncodeBody, ValidItems, ValidEntries, ValidBody, InRange, OpaqueShape, At,
      ReadVar;
    match v
    case Num(t, n) => WrittenNumberEnds(p, t, n, data, pos);
    case Raw(t, raw) =>
    case List(_, elem, items) =>
      var header := EncodeListHeader(p, elem, Count(items));
      AtConcat(data, pos, header, EncodeItems(p, elem, items));
      RoundTrip.ListHeaderRoundTrip(p, elem, Count(items), data, pos);
      WrittenItemsEnd(p, elem, items, data, pos + |header|);
    case Map(key, elem, entries) =>
      var header := EncodeMapHeader(key, elem, CountEntries(entries));
      AtConcat(data, pos, header, EncodeEntries(p, key, elem, entries));
      RoundTrip.MapHeaderRoundTrip(key, elem, CountEntries(entries), data, pos);
      WrittenEntriesEnd(p, key, elem, entries, data, pos + |header|);
    case Struct(body) =>
      if p == CompactV1 {
        assert [] + EncodeBody(p, body) == EncodeBody(p, body);
        WrittenBodyEnds(p, body, data, pos);
      }
  }

  lemma WrittenNumberEnds(p: Protocol, t: byte, n: int, data: seq<byte>, pos: nat)
    requires p != Fast && Numeric(t) && InRange(t, n) && At(data, pos, EncodeNum(p, t, n))
    ensures Ended(p, t, data, pos)
  {
    hide ReadVar, Unsigned, EncodeZigzag, Encode, At, InRange, Code, EncodeNum;
    if Size(t) == 2 || Size(t) == 4 {
      CodeWritten(p, t, n);
      ReadVarRoundTrip(data, pos, Code(t, n), Size(t));
      LastGroupByte(data, pos, Code(t, n));
    }
  }

  /** The unsigned integer as which a number is written. */
  function Code(t: byte, n: int): (u: nat)
    ensures u < Modulus(Size(t))
  {
    if IsSigned(t) then EncodeZigzag(n, Modulus(Size(t))) else Unsigned(n, Modulus(Size(t)))
  }

  lemma CodeWritten(p: Protocol, t: byte, n: int)
    requires p != Fast && Size(t) > 1
    ensures EncodeNum(p, t, n) == Encode(Code(t, n))
  {
    hide Encode, Unsigned, EncodeZigzag;
  }

  lemma {:induction false} WrittenItemsEnd(p: Protocol, elem: byte, items: Items, data: seq<byte>, pos: nat)
    requires p != Fast && ValidItems(elem, items) && |data| < U32
    requires At(data, pos, EncodeItems(p, elem, items))
    ensures EndedItems(p, elem, Count(items), data, pos)
    decreases items
  {
    hide EncodeValue, ParseValue, Valid, At, Ended;
    match items
    case NoItems =>
    case Item(head, tail) =>
      AtConcat(data, pos, EncodeValue(p, head), EncodeItems(p, elem, tail));
      RoundTrip.ValueRoundTrip(p, head, data, pos);
      WrittenEnds(p, head, data, pos);
      WrittenItemsEnd(p, elem, tail, data, pos + |EncodeValue(p, head)|);
  }

  lemma {:induction false} WrittenEntriesEnd(p: Protocol, key: byte, elem: byte, entries: Entries,
                                             data: seq<byte>, pos: nat)
    requires p != Fast && ValidEntries(key, elem, entries) && |data| < U32
    requires At(data, pos, EncodeEntries(p, key, elem, entries))
    ensures EndedEntries(p, key, elem, CountEntries(entries), data, pos)
    decreases entries
  {
    hide EncodeValue, ParseValue, Valid, At, Ended;
    match entries
    case NoEntries =>
    case Entry(k, v, rest) =>
      var mid := pos + |EncodeValue(p, k)|;
      AtConcat(data, pos, EncodeValue(p, k), EncodeValue(p, v) + EncodeEntries(p, key, elem, rest));
      AtConcat(data, mid, EncodeValue(p, v), EncodeEntries(p, key, elem, rest));
      RoundTrip.ValueRoundTrip(p, k, data, pos);
      RoundTrip.ValueRoundTrip(p, v, data, mid);
      WrittenEnds(p, k, data, pos);
      WrittenEnds(p, v, data, mid);
      WrittenEntriesEnd(p, key, elem, rest, data, mid + |EncodeValue(p, v)|);
  }

  lemma {:induction false} WrittenBodyEnds(p: Protocol, body: Body, data: seq<byte>, pos: nat)
    requires p != Fast && ValidBody(body) && |data| < U32
    requires At(data, pos, EncodeBody(p, body))
    ensures EndedBody(p, data, pos)
    decreases body
  {
    hide EncodeValue, ParseValue, Valid, At, Ended, EncodeFieldHeader, ParseFieldHeader;
    match body
    case Stop => RoundTrip.StopRoundTrip(p, BT_STOP, data, pos);
    case StopBase(next) =>
      AtConcat(data, pos, [BT_STOP_BASE], EncodeBody(p, next));
      RoundTrip.StopRoundTrip(p, BT_STOP_BASE, data, pos);
      WrittenBodyEnds(p, next, data, pos + 1);
    case Field(id, v, next) =>
      var header := EncodeFieldHeader(p, TypeOf(v), id);
      var mid := pos + |header|;
      AtConcat(data, pos, header, EncodeValue(p, v) + EncodeBody(p, next));
      AtConcat(data, mid, EncodeValue(p, v), EncodeBody(p, next));
      RoundTrip.FieldHeaderRoundTrip(p, TypeOf(v), id, data, pos);
      RoundTrip.ValueRoundTrip(p, v, data, mid);
      WrittenEnds(p, v, data, mid);
      WrittenBodyEnds(p, next, data, mid + |EncodeValue(p, v)|);
  }

  // ------------------------------------------------------------ the skipper

  /** The size of the items that are passed over in one step, or 0. */
  function ItemSize(elem: byte): nat {
    if elem == BT_BOOL || elem == BT_UINT8 || elem == BT_INT8 then 1
    else if elem == BT_FLOAT then 4
    else if elem == BT_DOUBLE then 8
    else 0
  }

  lemma {:induction false} ItemsEnd(p: Protocol, elem: byte, count: nat, data: seq<byte>, pos: nat)
    requires ItemSize(elem) > 0 && ParseItems(p, elem, count, data, pos).Some?
    ensures ParseItems(p, elem, count, data, pos).value.1 == pos + count * ItemSize(elem)
    decreases count
  {
    if count > 0 {
      var w := ItemSize(elem);
      var mid := ParseValue(p, elem, data, pos).value.1;
      assert mid == pos + w;
      ItemsEnd(p, elem, count - 1, data, mid);
      assert (count - 1) * w + w == count * w;
    }
  }

  lemma SingleByte(p: Protocol, t: byte, data: seq<byte>, pos: nat)
    requires Numeric(t) && Size(t) == 1
    ensures match ParseNum(p, t, data, pos)
            case None => true
            case Some((_, next)) => next == pos + 1
  {
  }

  class CompactReader {
    const reader: TaggedReader

    ghost predicate Valid()
      reads this, reader
    {
      reader.protocol != Fast && reader.position <= |reader.data|
    }

    ghost function Left(): nat
      reads this, reader
    {
      if reader.position < |reader.data| then |reader.data| - reader.position else 0
    }

    constructor (version: Protocol, payload: Payload)
      requires version != Fast
      ensures Valid() && fresh(reader)
      ensures reader.protocol == version && reader.data == payload && reader.position == 0
    {
      reader := new TaggedReader(version, payload);
    }

    /** A skip beyond the end of the buffer is not made, and not reported. */
    method Skip(size: nat)
      requires Valid()
      modifies reader
      ensures Valid()
      ensures reader.position == if old(reader.position) + size <= |reader.data| then old(reader.position) + size
                                 else old(reader.position)
    {
      if size > |reader.data| - reader.position {
        return;
      }
      reader.SkipBytes(size);
    }

    method SkipNumber(t: byte) returns (ok: bool)
      requires Valid() && Numeric(t) && Size(t) > 1
      modifies reader
      ensures Valid() && (ok ==> old(reader.position) <= reader.position)
      ensures match ParseNum(reader.protocol, t, reader.data, old(reader.position))
              case None => true
              case Some((_, next)) =>
                Ended(reader.protocol, t, reader.data, old(reader.position)) ==> ok && reader.position == next
    {
      hide ReadVar, Modulus, DecodeZigzag;
      if ReadVar(reader.data, reader.position, Size(t)).Some? {
        SkipsNumber(reader.data, reader.position, Size(t));
      }
      var value := reader.VarInt(8);
      ok := value.Some?;
    }

    method SkipString(t: byte) returns (ok: bool)
      requires Valid() && (t == BT_STRING || t == BT_WSTRING)
      modifies reader
      ensures Valid() && (ok ==> old(reader.position) <= reader.position)
      ensures match ParseRaw(t, reader.data, old(reader.position))
              case None => true
              case Some((_, next)) => ok && reader.position == next
    {
      hide ReadVar;
      var length := reader.VarInt(4);
      if length == None {
        return false;
      }
      var size := if t == BT_WSTRING then 2 * length.value else length.value;
      if size >= U32 {
        return false;
      }
      Skip(size);
      ok := true;
    }

    /** Wherever a payload has a value of type `t` in which no 16-bit or 32-bit number ends in a flagged
        byte, the reader ends up where reading the value would have left it. */
    method SkipType(t: byte) returns (ok: bool)
      requires Valid()
      modifies reader
      ensures Valid() && (ok ==> old(reader.position) <= reader.position)
      ensures match ParseValue(reader.protocol, t, reader.data, old(reader.position))
              case None => true
              case Some((_, next)) =>
                Ended(reader.protocol, t, reader.data, old(reader.position)) ==> ok && reader.position == next
      decreases Left(), 2
    {
      hide ParseNum, ParseItems, ParseEntries, ParseBody, EndedItems, EndedEntries, EndedBody, ParseListHeader,
        ParseMapHeader, ReadVar;
      ok := true;
      if t == BT_BOOL || t == BT_UINT8 || t == BT_INT8 {
        SingleByte(reader.protocol, t, reader.data, reader.position);
        Skip(1);
      } else if Numeric(t) {
        ok := SkipNumber(t);
      } else if t == BT_FLOAT {
        Skip(4);
      } else if t == BT_DOUBLE {
        Skip(8);
      } else if t == BT_STRING || t == BT_WSTRING {
        ok := SkipString(t);
      } else if t == BT_SET || t == BT_LIST {
        ok := SkipContainer();
      } else if t == BT_MAP {
        ok := SkipMap();
      } else if t == BT_STRUCT {
        if reader.protocol == CompactV2 {
          ok := SkipStructV2();
        } else {
          ok := SkipStructV1();
        }
      }
    }

    /** `count` values of type `t`. */
    method SkipTypes(t: byte, count: nat) returns (ok: bool)
      requires Valid()
      modifies reader
      ensures Valid() && (ok ==> old(reader.position) <= reader.position)
      ensures match ParseItems(reader.protocol, t, count, reader.data, old(reader.position))
              case None => true
              case Some((_, next)) =>
                EndedItems(reader.protocol, t, count, reader.data, old(reader.position))
                ==> ok && reader.position == next
      decreases Left(), 3
    {
      hide ParseValue, Ended;
      ghost var items := ParseItems(reader.protocol, t, count, reader.data, reader.position);
      if ItemSize(t) > 0 {
        if items.Some? {
          ItemsEnd(reader.protocol, t, count, reader.data, reader.position);
        }
        var size := count * ItemSize(t);
        if size >= U32 {
          return false;
        }
        Skip(size);
        return true;
      }
      ghost var start := reader.position;
      ghost var ended := EndedItems(reader.protocol, t, count, reader.data, reader.position);
      for i := 0 to count
        invariant Valid() && start <= reader.position
        invariant items.Some? && ended ==>
                    && EndedItems(reader.protocol, t, count - i, reader.data, reader.position)
                    && var left := ParseItems(reader.protocol, t, count - i, reader.data, reader.position);
                       left.Some? && left.value.1 == items.value.1
      {
        ok := SkipType(t);
        if !ok {
          return;
        }
      }
      ok := true;
    }

    method SkipContainer() returns (ok: bool)
      requires Valid()
      modifies reader
      ensures Valid() && (ok ==> old(reader.position) <= reader.position)
      ensures match ParseListHeader(reader.protocol, reader.data, old(reader.position))
              case None => true
              case Some((elem, count, start)) =>
                match ParseItems(reader.protocol, elem, count, reader.data, start)
                case None => true
                case Some((_, next)) =>
                  EndedItems(reader.protocol, elem, count, reader.data, start) ==> ok && reader.position == next
      decreases Left(), 1
    {
      hide ParseListHeader, ParseItems, EndedItems;
      var header := reader.ReadListBegin();
      if header == None {
        return false;
      }
      ok := SkipTypes(header.value.0, header.value.1);
    }

    method SkipMap() returns (ok: bool)
      requires Valid()
      modifies reader
      ensures Valid() && (ok ==> old(reader.position) <= reader.position)
      ensures match ParseMapHeader(reader.data, old(reader.position))
              case None => true
              case Some((key, elem, count, start)) =>
                match ParseEntries(reader.protocol, key, elem, count, reader.data, start)
                case None => true
                case Some((_, next)) =>
                  EndedEntries(reader.protocol, key, elem, count, reader.data, start)
                  ==> ok && reader.position == next
      decreases Left(), 1
    {
      hide ParseMapHeader, ParseValue, Ended;
      var header := reader.ReadMapBegin();
      if header == None {
        return false;
      }
      var (key, elem, count) := header.value;
      ghost var start := reader.position;
      ghost var entries := ParseEntries(reader.protocol, key, elem, count, reader.data, start);
      ghost var ended := EndedEntries(reader.protocol, key, elem, count, reader.data, start);
      for i := 0 to count
        invariant Valid() && start <= reader.position
        invariant entries.Some? && ended ==>
                    && EndedEntries(reader.protocol, key, elem, count - i, reader.data, reader.position)
                    && var left := ParseEntries(reader.protocol, key, elem, count - i, reader.data, reader.position);
                       left.Some? && left.value.1 == entries.value.1
      {
        ok := SkipType(key);
        if !ok {
          return;
        }
        ok := SkipType(elem);
        if !ok {
          return;
        }
      }
      ok := true;
    }

    method SkipStructV2() returns (ok: bool)
      requires Valid() && reader.protocol == CompactV2
      modifies reader
      ensures Valid() && (ok ==> old(reader.position) <= reader.position)
      ensures ParseValue(CompactV2, BT_STRUCT, reader.data, old(reader.position)).Some? ==>
                ok && reader.position == ParseValue(CompactV2, BT_STRUCT, reader.data, old(reader.position)).value.1
      decreases Left(), 1
    {
      hide ParseBody, ReadVar;
      var length := reader.VarInt(4);
      if length == None {
        return false;
      }
      Skip(length.value);
      ok := true;
    }

    /** Level by level, up to the end of the most derived one. */
    method SkipStructV1() returns (ok: bool)
      requires Valid() && reader.protocol == CompactV1
      modifies reader
      ensures Valid() && (ok ==> old(reader.position) <= reader.position)
      ensures match ParseBody(CompactV1, reader.data, old(reader.position))
              case None => true
              case Some((_, next)) =>
                EndedBody(CompactV1, reader.data, old(reader.position)) ==> ok && reader.position == next
      decreases Left(), 1
    {
      hide ParseValue, Ended, ParseFieldHeader;
      ghost var start := reader.position;
      ghost var body := ParseBody(CompactV1, reader.data, start);
      ghost var ended := EndedBody(CompactV1, reader.data, start);
      while true
        invariant Valid() && start <= reader.position
        invariant body.Some? && ended ==>
                    && EndedBody(CompactV1, reader.data, reader.position)
                    && var left := ParseBody(CompactV1, reader.data, reader.position);
                       left.Some? && left.value.1 == body.value.1
        decreases Left()
      {
        ok := reader.ReadStructBegin();
        ghost var level := reader.position;
        var header := reader.ReadFieldBegin();
        if header == None {
          return false;
        }
        var (t, id) := header.value;
        while t != BT_STOP && t != BT_STOP_BASE
          invariant Valid() && level < reader.position
          invariant body.Some? && ended ==>
                      && EndedAfterHeader(CompactV1, t, reader.data, reader.position)
                      && var left := ParseAfterHeader(CompactV1, t, id, reader.data, reader.position);
                         left.Some? && left.value.1 == body.value.1
          decreases Left()
        {
          ok := SkipType(t);
          if !ok {
            return;
          }
          header := reader.ReadFieldBegin();
          if header == None {
            return false;
          }
          t, id := header.value.0, header.value.1;
        }
        if t == BT_STOP {
          return true;
        }
      }
    }
  }
}
