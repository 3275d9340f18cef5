/** Reading an encoding, wherever it stands and whatever surrounds it, returns the value that was
    encoded and stops exactly at its end. */
module RoundTrip {
  import opened Bytes
  import opened Varint
  import opened Input
  import opened Wire
  import opened Grammar

  lemma Pow256Values()
    ensures Pow256(2) == U16 && Pow256(4) == U32 && Pow256(8) == U64
  {
    assert Pow256(2) == U16;
    assert Pow256(4) == U32;
    assert Pow256(6) == 0x1_0000_0000_0000;
  }

  /** Two's complement and zigzag are undone, and what is written fits its width. */
  lemma NumCodes(t: byte, n: int)
    requires Numeric(t) && InRange(t, n)
    ensures var m := Modulus(Size(t));
            && (IsSigned(t) ==> Signed(Unsigned(n, m), m) == n && DecodeZigzag(EncodeZigzag(n, m), m) == n)
            && (!IsSigned(t) ==> Unsigned(n, m) == n)
  {
    var m := Modulus(Size(t));
    if IsSigned(t) {
      SignedRoundTrip(n, m);
      ZigzagRoundTrip(n, m);
    } else {
      WrapOnce(n, m);
    }
  }

  lemma NumRoundTrip(p: Protocol, t: byte, n: int, data: seq<byte>, pos: nat)
    requires Numeric(t) && InRange(t, n)
    requires At(data, pos, EncodeNum(p, t, n))
    ensures ParseNum(p, t, data, pos) == Some((n, pos + |EncodeNum(p, t, n)|))
  {
    if Size(t) == 1 {
      ByteRoundTrip(p, t, n, data, pos);
    } else if p == Fast {
      FixedRoundTrip(t, n, data, pos);
    } else {
      VarRoundTrip(p, t, n, data, pos);
    }
  }

  lemma ByteRoundTrip(p: Protocol, t: byte, n: int, data: seq<byte>, pos: nat)
    requires Numeric(t) && InRange(t, n) && Size(t) == 1 && At(data, pos, EncodeNum(p, t, n))
    ensures ParseNum(p, t, data, pos) == Some((n, pos + |EncodeNum(p, t, n)|))
  {
    NumCodes(t, n);
    hide Unsigned, Signed, EncodeZigzag, DecodeZigzag, ReadVar, Encode, InRange;
    assert data[pos] == Unsigned(n, Modulus(Size(t)));
    if t == BT_BOOL {
      assert n == 0 || n == 1 by { BoolRange(n); }
    }
  }

  lemma BoolRange(n: int)
    requires InRange(BT_BOOL, n)
    ensures n == 0 || n == 1
  {
  }

  lemma FixedRoundTrip(t: byte, n: int, data: seq<byte>, pos: nat)
    requires Numeric(t) && InRange(t, n) && Size(t) > 1 && At(data, pos, EncodeNum(Fast, t, n))
    ensures ParseNum(Fast, t, data, pos) == Some((n, pos + |EncodeNum(Fast, t, n)|))
  {
    NumCodes(t, n);
    hide Unsigned, Signed, EncodeZigzag, DecodeZigzag, ReadVar, Encode, InRange, LittleEndian, FromLittleEndian;
    Pow256Values();
    LittleEndianRoundTrip(data, pos, Unsigned(n, Modulus(Size(t))), Size(t));
  }

  lemma VarRoundTrip(p: Protocol, t: byte, n: int, data: seq<byte>, pos: nat)
    requires p != Fast && Numeric(t) && InRange(t, n) && Size(t) > 1 && At(data, pos, EncodeNum(p, t, n))
    ensures ParseNum(p, t, data, pos) == Some((n, pos + |EncodeNum(p, t, n)|))
  {
    NumCodes(t, n);
    hide Unsigned, Signed, EncodeZigzag, DecodeZigzag, ReadVar, Encode, InRange, At;
    var m := Modulus(Size(t));
    ReadVarRoundTrip(data, pos, if IsSigned(t) then EncodeZigzag(n, m) else Unsigned(n, m), Size(t));
  }

  lemma RawRoundTrip(t: byte, raw: seq<byte>, data: seq<byte>, pos: nat)
    requires Opaque(t) && OpaqueShape(t, raw)
    requires At(data, pos, EncodeRaw(t, raw))
    ensures ParseRaw(t, data, pos) == Some((raw, pos + |EncodeRaw(t, raw)|))
  {
    if t == BT_STRING || t == BT_WSTRING {
      var units := if t == BT_STRING then |raw| else |raw| / 2;
      AtConcat(data, pos, Encode(units), raw);
      ReadVarRoundTrip(data, pos, units, 4);
    }
  }

  /** The three forms of a compact field header, and the fixed Fast one. */
  lemma FieldHeaderRoundTrip(p: Protocol, t: byte, id: nat, data: seq<byte>, pos: nat)
    requires DataType(t) && id < U16
    requires At(data, pos, EncodeFieldHeader(p, t, id))
    ensures ParseFieldHeader(p, data, pos) == Some((t, id, pos + |EncodeFieldHeader(p, t, id)|))
  {
    Pow256Values();
    if p == Fast {
      AtByte(data, pos, t, LittleEndian(id, 2));
      LittleEndianRoundTrip(data, pos + 1, id, 2);
    } else if id <= 5 {
      assert data[pos] == t + 32 * id;
    } else if id <= 0xFF {
      AtByte(data, pos, t + 32 * 6, [id]);
      assert [t + 32 * 6] + [id] == EncodeFieldHeader(p, t, id);
      assert data[pos + 1] == id;
    } else {
      AtByte(data, pos, t + 32 * 7, LittleEndian(id, 2));
      LittleEndianRoundTrip(data, pos + 1, id, 2);
    }
  }

  lemma StopRoundTrip(p: Protocol, t: byte, data: seq<byte>, pos: nat)
    requires t == BT_STOP || t == BT_STOP_BASE
    requires At(data, pos, [t])
    ensures ParseFieldHeader(p, data, pos) == Some((t, 0, pos + 1))
  {
    assert data[pos] == t;
  }

  lemma ListHeaderRoundTrip(p: Protocol, elem: byte, count: nat, data: seq<byte>, pos: nat)
    requires DataType(elem) && count <= INT_MAX
    requires At(data, pos, EncodeListHeader(p, elem, count))
    ensures ParseListHeader(p, data, pos) == Some((elem, count, pos + |EncodeListHeader(p, elem, count)|))
  {
    if p == CompactV2 && count < 7 {
      assert data[pos] == elem + 32 * (count + 1);
    } else {
      AtByte(data, pos, elem, Encode(count));
      ReadVarRoundTrip(data, pos + 1, count, 4);
    }
  }

  lemma MapHeaderRoundTrip(key: byte, elem: byte, count: nat, data: seq<byte>, pos: nat)
    requires count <= INT_MAX
    requires At(data, pos, EncodeMapHeader(key, elem, count))
    ensures ParseMapHeader(data, pos) == Some((key, elem, count, pos + |EncodeMapHeader(key, elem, count)|))
  {
    AtConcat(data, pos, [key, elem], Encode(count));
    assert data[pos..pos + 2][0] == key && data[pos..pos + 2][1] == elem;
    ReadVarRoundTrip(data, pos + 2, count, 4);
  }

  /** The struct fits in a 32-bit length, as everything in a memory buffer does. */
  lemma LengthRoundTrip(p: Protocol, length: nat, data: seq<byte>, pos: nat)
    requires p == CompactV2 ==> length < U32
    requires At(data, pos, EncodeLength(p, length))
    ensures ParseLength(p, data, pos) == Some((if p == CompactV2 then length else 0, pos + |EncodeLength(p, length)|))
  {
    if p == CompactV2 {
      ReadVarRoundTrip(data, pos, length, 4);
    }
  }

  lemma {:induction false} EncodedNonempty(p: Protocol, v: Value)
    requires Valid(v)
    ensures |EncodeValue(p, v)| >= 1
  {
    match v
    case Num(_, _) =>
    case Raw(_, _) =>
    case List(_, _, _) =>
    case Map(_, _, _) =>
    case Struct(_) =>
  }

  lemma {:induction false} ValueRoundTrip(p: Protocol, v: Value, data: seq<byte>, pos: nat)
    requires Valid(v) && (p == CompactV2 ==> |data| < U32)
    requires At(data, pos, EncodeValue(p, v))
    ensures ParseValue(p, TypeOf(v), data, pos) == Some((v, pos + |EncodeValue(p, v)|))
    decreases v
  {
    hide EncodeNum, ParseNum, EncodeRaw, ParseRaw, EncodeListHeader, ParseListHeader, EncodeMapHeader,
      ParseMapHeader, EncodeLength, ParseLength, ParseItems, EncodeItems, ParseEntries, EncodeEntries,
      ParseBody, EncodeBody, ValidItems, ValidEntries, ValidBody, InRange, OpaqueShape, At;
    EncodedNonempty(p, v);
    match v
    case Num(t, n) => NumRoundTrip(p, t, n, data, pos);
    case Raw(t, raw) => RawRoundTrip(t, raw, data, pos);
    case List(_, elem, items) =>
      var header := EncodeListHeader(p, elem, Count(items));
      AtConcat(data, pos, header, EncodeItems(p, elem, items));
      ListHeaderRoundTrip(p, elem, Count(items), data, pos);
      ItemsRoundTrip(p, elem, items, data, pos + |header|);
    case Map(key, elem, entries) =>
      var header := EncodeMapHeader(key, elem, CountEntries(entries));
      AtConcat(data, pos, header, EncodeEntries(p, key, elem, entries));
      MapHeaderRoundTrip(key, elem, CountEntries(entries), data, pos);
      EntriesRoundTrip(p, key, elem, entries, data, pos + |header|);
    case Struct(body) =>
      var length := |EncodeBody(p, body)|;
      AtConcat(data, pos, EncodeLength(p, length), EncodeBody(p, body));
      AtFits(data, pos + |EncodeLength(p, length)|, EncodeBody(p, body));
      LengthRoundTrip(p, length, data, pos);
      BodyRoundTrip(p, body, data, pos + |EncodeLength(p, length)|);
  }

  lemma {:induction false} ItemsRoundTrip(p: Protocol, elem: byte, items: Items, data: seq<byte>, pos: nat)
    requires ValidItems(elem, items) && (p == CompactV2 ==> |data| < U32)
    requires At(data, pos, EncodeItems(p, elem, items))
    ensures ParseItems(p, elem, Count(items), data, pos) == Some((items, pos + |EncodeItems(p, elem, items)|))
    decreases items
  {
    hide EncodeValue, ParseValue, Valid, At;
    match items
    case NoItems =>
    case Item(head, tail) =>
      AtConcat(data, pos, EncodeValue(p, head), EncodeItems(p, elem, tail));
      ValueRoundTrip(p, head, data, pos);
      ItemsRoundTrip(p, elem, tail, data, pos + |EncodeValue(p, head)|);
  }

  lemma {:induction false} EntriesRoundTrip(p: Protocol, key: byte, elem: byte, entries: Entries,
                                            data: seq<byte>, pos: nat)
    requires ValidEntries(key, elem, entries) && (p == CompactV2 ==> |data| < U32)
    requires At(data, pos, EncodeEntries(p, key, elem, entries))
    ensures ParseEntries(p, key, elem, CountEntries(entries), data, pos)
         == Some((entries, pos + |EncodeEntries(p, key, elem, entries)|))
    decreases entries
  {
    hide EncodeValue, ParseValue, Valid, At;
    match entries
    case NoEntries =>
    case Entry(k, v, rest) =>
      var mid := pos + |EncodeValue(p, k)|;
      AtConcat(data, pos, EncodeValue(p, k), EncodeValue(p, v) + EncodeEntries(p, key, elem, rest));
      AtConcat(data, mid, EncodeValue(p, v), EncodeEntries(p, key, elem, rest));
      ValueRoundTrip(p, k, data, pos);
      ValueRoundTrip(p, v, data, mid);
      EntriesRoundTrip(p, key, elem, rest, data, mid + |EncodeValue(p, v)|);
  }

  lemma StopParsed(p: Protocol, t: byte, data: seq<byte>, pos: nat)
    requires (t == BT_STOP || t == BT_STOP_BASE) && ParseFieldHeader(p, data, pos) == Some((t, 0, pos + 1))
    ensures t == BT_STOP ==> ParseBody(p, data, pos) == Some((Stop, pos + 1))
    ensures t == BT_STOP_BASE && ParseBody(p, data, pos + 1).Some? ==>
              var (next, end) := ParseBody(p, data, pos + 1).value;
              ParseBody(p, data, pos) == Some((StopBase(next), end))
  {
    hide ParseFieldHeader, ParseValue;
  }

  lemma FieldParsed(p: Protocol, t: byte, id: nat, v: Value, next: Body, data: seq<byte>, pos: nat, start: nat)
    requires DataType(t) && ParseFieldHeader(p, data, pos) == Some((t, id, start))
    requires ParseValue(p, t, data, start).Some? && ParseValue(p, t, data, start).value.0 == v
    requires var mid := ParseValue(p, t, data, start).value.1;
             ParseBody(p, data, mid).Some? && ParseBody(p, data, mid).value.0 == next
    ensures ParseBody(p, data, pos)
         == Some((Field(id, v, next), ParseBody(p, data, ParseValue(p, t, data, start).value.1).value.1))
  {
    hide ParseFieldHeader, ParseValue;
  }

  lemma {:induction false} BodyRoundTrip(p: Protocol, body: Body, data: seq<byte>, pos: nat)
    requires ValidBody(body) && (p == CompactV2 ==> |data| < U32)
    requires At(data, pos, EncodeBody(p, body))
    ensures ParseBody(p, data, pos) == Some((body, pos + |EncodeBody(p, body)|))
    decreases body
  {
    hide EncodeValue, ParseValue, Valid, At, EncodeFieldHeader, ParseFieldHeader, TypeOf, ParseAfterHeader;
    match body
    case Stop =>
      StopRoundTrip(p, BT_STOP, data, pos);
      StopParsed(p, BT_STOP, data, pos);
    case StopBase(next) =>
      AtConcat(data, pos, [BT_STOP_BASE], EncodeBody(p, next));
      StopRoundTrip(p, BT_STOP_BASE, data, pos);
      BodyRoundTrip(p, next, data, pos + 1);
      StopParsed(p, BT_STOP_BASE, data, pos);
    case Field(id, v, next) =>
      var header := EncodeFieldHeader(p, TypeOf(v), id);
      var mid := pos + |header|;
      AtConcat(data, pos, header, EncodeValue(p, v) + EncodeBody(p, next));
      AtConcat(data, mid, EncodeValue(p, v), EncodeBody(p, next));
      FieldHeaderRoundTrip(p, TypeOf(v), id, data, pos);
      ValueRoundTrip(p, v, data, mid);
      BodyRoundTrip(p, next, data, mid + |EncodeValue(p, v)|);
      FieldParsed(p, TypeOf(v), id, v, next, data, pos, mid);
  }

  /** No encoding is a prefix of another one of the same type: the format is self-delimiting, and
      a payload has one meaning. */
  lemma Unambiguous(p: Protocol, v: Value, w: Value, x: seq<byte>, y: seq<byte>)
    requires Valid(v) && Valid(w) && TypeOf(v) == TypeOf(w)
    requires EncodeValue(p, v) + x == EncodeValue(p, w) + y
    requires p == CompactV2 ==> |EncodeValue(p, v) + x| < U32
    ensures v == w && x == y
  {
    var data := EncodeValue(p, v) + x;
    assert data[..|EncodeValue(p, v)|] == EncodeValue(p, v);
    assert data[..|EncodeValue(p, w)|] == EncodeValue(p, w);
    ValueRoundTrip(p, v, data, 0);
    ValueRoundTrip(p, w, data, 0);
    assert x == data[|EncodeValue(p, v)|..] && y == data[|EncodeValue(p, w)|..];
  }

  // ------------------------------------------------- what is read can be written

  lemma ReadVarBound(data: seq<byte>, pos: nat, width: nat)
    requires width == 2 || width == 4 || width == 8
    requires ReadVar(data, pos, width).Some?
    ensures ReadVar(data, pos, width).value.0 < Modulus(width)
  {
    if width == 8 && pos + 10 <= |data| {
      GroupsBound(data, pos, 9);
      Pow128Values();
    }
  }

  lemma UnzigzagRange(u: nat, m: nat)
    requires Width(m) && u < m
    ensures -(m as int) <= 2 * DecodeZigzag(u, m) < m
  {
    WrapOnce(XorMask(u / 2, -(u % 2)), m);
  }

  lemma ParsedNumInRange(p: Protocol, t: byte, data: seq<byte>, pos: nat)
    requires Numeric(t) && ParseNum(p, t, data, pos).Some?
    ensures InRange(t, ParseNum(p, t, data, pos).value.0)
  {
    var m := Modulus(Size(t));
    if Size(t) != 1 {
      if p == Fast {
        Pow256Values();
      } else {
        ReadVarBound(data, pos, Size(t));
        if IsSigned(t) {
          UnzigzagRange(ReadVar(data, pos, Size(t)).value.0, m);
        }
      }
    }
  }

  lemma ParsedRawShape(t: byte, data: seq<byte>, pos: nat)
    requires Opaque(t) && ParseRaw(t, data, pos).Some?
    ensures OpaqueShape(t, ParseRaw(t, data, pos).value.0)
  {
    hide ReadVar;
  }

  lemma {:induction false} ParsedIsValid(p: Protocol, t: byte, data: seq<byte>, pos: nat)
    requires ParseValue(p, t, data, pos).Some?
    ensures Valid(ParseValue(p, t, data, pos).value.0)
    decreases if pos < |data| then |data| - pos else 0, 1, 0
  {
    hide ParseNum, ParseRaw, ParseListHeader, ParseMapHeader, ParseLength, ParseItems, ParseEntries, ParseBody,
      InRange, OpaqueShape;
    if Numeric(t) {
      ParsedNumInRange(p, t, data, pos);
    } else if Opaque(t) {
      ParsedRawShape(t, data, pos);
    } else if t == BT_LIST || t == BT_SET {
      var (elem, count, start) := ParseListHeader(p, data, pos).value;
      ParsedItemsAreValid(p, elem, count, data, start);
    } else if t == BT_MAP {
      var (key, elem, count, start) := ParseMapHeader(data, pos).value;
      ParsedEntriesAreValid(p, key, elem, count, data, start);
    } else if t == BT_STRUCT {
      ParsedBodyIsValid(p, data, ParseLength(p, data, pos).value.1);
    }
  }

  lemma {:induction false} ParsedItemsAreValid(p: Protocol, elem: byte, count: nat, data: seq<byte>, pos: nat)
    requires ParseItems(p, elem, count, data, pos).Some?
    ensures ValidItems(elem, ParseItems(p, elem, count, data, pos).value.0)
    decreases if pos < |data| then |data| - pos else 0, 2, count
  {
    hide ParseValue, Valid;
    if count > 0 {
      ParsedIsValid(p, elem, data, pos);
      ParsedItemsAreValid(p, elem, count - 1, data, ParseValue(p, elem, data, pos).value.1);
    }
  }

  lemma {:induction false} ParsedEntriesAreValid(p: Protocol, key: byte, elem: byte, count: nat,
                                                 data: seq<byte>, pos: nat)
    requires ParseEntries(p, key, elem, count, data, pos).Some?
    ensures ValidEntries(key, elem, ParseEntries(p, key, elem, count, data, pos).value.0)
    decreases if pos < |data| then |data| - pos else 0, 2, count
  {
    hide ParseValue, Valid;
    if count > 0 {
      ParsedIsValid(p, key, data, pos);
      var mid := ParseValue(p, key, data, pos).value.1;
      ParsedIsValid(p, elem, data, mid);
      ParsedEntriesAreValid(p, key, elem, count - 1, data, ParseValue(p, elem, data, mid).value.1);
    }
  }

  lemma {:induction false} ParsedBodyIsValid(p: Protocol, data: seq<byte>, pos: nat)
    requires ParseBody(p, data, pos).Some?
    ensures ValidBody(ParseBody(p, data, pos).value.0)
    decreases if pos < |data| then |data| - pos else 0, 0, 1
  {
    hide ParseValue, Valid;
    var (t, id, start) := ParseFieldHeader(p, data, pos).value;
    if t == BT_STOP_BASE {
      ParsedBodyIsValid(p, data, start);
    } else if t != BT_STOP {
      Pow256Values();
      ParsedIsValid(p, t, data, start);
      ParsedBodyIsValid(p, data, ParseValue(p, t, data, start).value.1);
    }
  }
}
