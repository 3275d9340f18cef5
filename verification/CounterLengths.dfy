/** For every value, the counter's length list is the list of true struct lengths, in preorder. */
module CounterLengths {
  import opened Bytes
  import opened Varint
  import opened Wire
  import opened Calls
  import opened Counter

  /** A run of byte-sized items takes one byte each, in any compact or Fast encoding. */
  lemma {:induction false} ByteItems(p: Protocol, elem: byte, items: Items)
    requires ByteType(elem) && ValidItems(elem, items)
    ensures EncodeItems(p, elem, items) == ItemBytes(elem, items)
  {
    match items
    case NoItems =>
    case Item(head, tail) =>
      assert Valid(head) && TypeOf(head) == elem;
      ByteItems(p, elem, tail);
  }

  lemma {:induction false} NoNestedLengths(elem: byte, items: Items)
    requires ByteType(elem) && ValidItems(elem, items)
    ensures LengthsOfItems(elem, items) == []
  {
    match items
    case NoItems =>
    case Item(head, tail) =>
      assert Valid(head) && TypeOf(head) == elem;
      NoNestedLengths(elem, tail);
  }

  lemma SimpleCall(s: State, call: Call, count: nat)
    requires s.frames != [] && Weight(call) == count
    requires !call.StructBegin? && !call.StructEnd? && !call.BondedBegin?
    ensures Step(s, call) == Some(State(s.lengths, Charge(s.frames, count)))
  {
  }

  /** A struct is open and its count is a 32-bit integer. */
  ghost predicate Open(s: State) {
    s.frames != [] && Int32(s.frames[|s.frames| - 1].current) == s.frames[|s.frames| - 1].current
  }

  ghost predicate Counted(s: State, calls: seq<Call>, lengths: seq<nat>, count: nat) {
    Run(Step, s, calls) == Some(State(s.lengths + lengths, Charge(s.frames, count)))
  }

  lemma CountedConcat(s: State, a: seq<Call>, b: seq<Call>,
                      la: seq<nat>, lb: seq<nat>, x: nat, y: nat)
    requires Counted(s, a, la, x)
    requires Counted(State(s.lengths + la, Charge(s.frames, x)), b, lb, y)
    ensures Counted(s, a + b, la + lb, x + y)
  {
    RunConcat(Step, s, a, b);
    ChargeTwice(s.frames, x, y);
    assert s.lengths + la + lb == s.lengths + (la + lb);
  }

  lemma CountedThree(s: State, a: seq<Call>, b: seq<Call>, c: seq<Call>,
                     la: seq<nat>, lb: seq<nat>, lc: seq<nat>, x: nat, y: nat, z: nat)
    requires var mid := State(s.lengths + la, Charge(s.frames, x));
             && Counted(s, a, la, x) && Counted(mid, b, lb, y)
             && Counted(State(mid.lengths + lb, Charge(mid.frames, y)), c, lc, z)
    ensures Counted(s, a + (b + c), la + (lb + lc), x + (y + z))
  {
    hide Counted, Charge;
    CountedConcat(State(s.lengths + la, Charge(s.frames, x)), b, c, lb, lc, y, z);
    CountedConcat(s, a, b + c, la, lb + lc, x, y + z);
  }

  lemma CountedCall(s: State, call: Call, count: nat)
    requires Open(s) && Weight(call) == count
    requires !call.StructBegin? && !call.StructEnd? && !call.BondedBegin?
    ensures Counted(s, [call], [], count)
  {
    RunOne(Step, s, call);
    SimpleCall(s, call, count);
    assert s.lengths + [] == s.lengths;
  }

  lemma {:induction false} CountsValue(style: Style, v: Value, s: State)
    requires Valid(v) && Open(s) && |EncodeValue(CompactV2, v)| < U32
    ensures Counted(s, CallsOf(style, v), LengthsOf(v), |EncodeValue(CompactV2, v)|)
    decreases v, 1
  {
    hide Counted, Charge, Step, Weight, EncodeNum, EncodeRaw, EncodeListHeader, EncodeMapHeader, EncodeItems,
      EncodeEntries, CallsOfList, CallsOfEntries, CallsOfStruct, LengthsOfItems, LengthsOfEntries,
      ValidItems, ValidEntries,
      ValidBody, EncodeBody, InRange, OpaqueShape, Open;
    match v
    case Num(t, n) =>
      CallBytes(t, n);
      CountedCall(s, WriteNum(t, n), |EncodeNum(CompactV2, t, n)|);
    case Raw(t, raw) =>
      RawBytes(t, raw);
      CountedCall(s, WriteRaw(t, raw), |EncodeRaw(t, raw)|);
    case List(_, elem, items) =>
      var header := |EncodeListHeader(CompactV2, elem, Count(items))|;
      HeaderBytes(elem, elem, 0, Count(items));
      CountedCall(s, ContainerBegin(Count(items), elem), header);
      CountsList(style, elem, items, Charged(s, header));
      CountedConcat(s, [ContainerBegin(Count(items), elem)], CallsOfList(style, elem, items),
                    [], LengthsOfItems(elem, items), header, |EncodeItems(CompactV2, elem, items)|);
      assert [] + LengthsOfItems(elem, items) == LengthsOfItems(elem, items);
    case Map(key, elem, entries) =>
      var header := |EncodeMapHeader(key, elem, CountEntries(entries))|;
      HeaderBytes(elem, key, 0, CountEntries(entries));
      CountedCall(s, MapBegin(CountEntries(entries), key, elem), header);
      CountsEntries(style, key, elem, entries, Charged(s, header));
      CountedConcat(s, [MapBegin(CountEntries(entries), key, elem)], CallsOfEntries(style, key, elem, entries),
                    [], LengthsOfEntries(key, elem, entries), header, |EncodeEntries(CompactV2, key, elem, entries)|);
      assert [] + LengthsOfEntries(key, elem, entries) == LengthsOfEntries(key, elem, entries);
    case Struct(body) =>
      CountsStruct(style, body, s);
      if style.bonded {
        BondedIsFree(s, CallsOfStruct(style, body), LengthsOf(v), |EncodeValue(CompactV2, v)|);
      } else {
        assert [] + CallsOfStruct(style, body) == CallsOfStruct(style, body);
      }
  }

  function Charged(s: State, count: nat): (r: State)
    ensures Open(s) ==> Open(r)
    ensures r == State(s.lengths + [], Charge(s.frames, count))
  {
    ChargeKeeps(s.lengths, s.frames, count);
    assert s.lengths + [] == s.lengths;
    State(s.lengths, Charge(s.frames, count))
  }

  /** The first-pass writer is not itself a two-pass writer: a bonded value is just counted. */
  lemma BondedIsFree(s: State, calls: seq<Call>, lengths: seq<nat>, count: nat)
    requires Counted(s, calls, lengths, count)
    ensures Counted(s, [BondedBegin(calls)] + calls, lengths, count)
  {
    RunCons(Step, s, BondedBegin(calls), calls);
  }

  lemma CountsStruct(style: Style, body: Body, s: State)
    requires ValidBody(body) && Open(s) && |EncodeValue(CompactV2, Struct(body))| < U32
    ensures Counted(s, CallsOfStruct(style, body), LengthsOf(Struct(body)),
                    |EncodeValue(CompactV2, Struct(body))|)
    decreases body, 1
  {
    hide Int32, Encode, EncodeBody, CallsOfBody, LengthsOfBody, ValidBody;
    var total := |EncodeBody(CompactV2, body)|;
    assert Int32(0) == 0 by { ZeroFits(); }
    RunCons(Step, s, StructBegin, CallsOfBody(style, body));
    CountsBody(style, body, s.lengths + [0], s.frames, |s.lengths|, 0);
    assert (s.lengths + [0] + LengthsOfBody(body))[|s.lengths| := total]
        == s.lengths + ([total] + LengthsOfBody(body));
  }

  lemma {:induction false} CountsList(style: Style, elem: byte, items: Items, s: State)
    requires ValidItems(elem, items) && Open(s) && |EncodeItems(CompactV2, elem, items)| < U32
    ensures Counted(s, CallsOfList(style, elem, items), LengthsOfItems(elem, items),
                    |EncodeItems(CompactV2, elem, items)|)
    decreases items, 1
  {
    if ByteType(elem) && style.bulk {
      ByteItems(CompactV2, elem, items);
      NoNestedLengths(elem, items);
      CountedCall(s, WriteBytes(ItemBytes(elem, items)), |ItemBytes(elem, items)|);
    } else {
      CountsItems(style, elem, items, s);
    }
  }

  lemma {:induction false} CountsItems(style: Style, elem: byte, items: Items, s: State)
    requires ValidItems(elem, items) && Open(s) && |EncodeItems(CompactV2, elem, items)| < U32
    ensures Counted(s, CallsOfItems(style, elem, items), LengthsOfItems(elem, items),
                    |EncodeItems(CompactV2, elem, items)|)
    decreases items, 0
  {
    assert s.frames != [];
    hide Counted, Charge, Open, EncodeValue, CallsOf, Valid;
    match items
    case NoItems => CountsNothing(s);
    case Item(head, tail) =>
      var x := |EncodeValue(CompactV2, head)|;
      CountsValue(First(style), head, s);
      var mid := State(s.lengths + LengthsOf(head), Charge(s.frames, x));
      ChargeKeeps(mid.lengths, s.frames, x);
      CountsItems(Rest(style), elem, tail, mid);
      CountedConcat(s, CallsOf(First(style), head), CallsOfItems(Rest(style), elem, tail),
                    LengthsOf(head), LengthsOfItems(elem, tail), x, |EncodeItems(CompactV2, elem, tail)|);
  }

  lemma ChargeKeeps(lengths: seq<nat>, frames: seq<Frame>, count: nat)
    ensures |Charge(frames, count)| == |frames|
    ensures frames != [] ==> Open(State(lengths, Charge(frames, count)))
  {
    if frames != [] {
      Int32Sum(frames[|frames| - 1].current + count, 0);
    }
  }

  lemma CountsNothing(s: State)
    requires Open(s)
    ensures Counted(s, [], [], 0)
  {
    var n := |s.frames| - 1;
    assert s.frames[..n] + [s.frames[n]] == s.frames;
    assert Charge(s.frames, 0) == s.frames;
    assert s.lengths + [] == s.lengths;
  }

  lemma {:induction false} CountsEntries(style: Style, key: byte, elem: byte, entries: Entries, s: State)
    requires ValidEntries(key, elem, entries) && Open(s)
    requires |EncodeEntries(CompactV2, key, elem, entries)| < U32
    ensures Counted(s, CallsOfEntries(style, key, elem, entries), LengthsOfEntries(key, elem, entries),
                    |EncodeEntries(CompactV2, key, elem, entries)|)
    decreases entries, 0
  {
    assert s.frames != [];
    hide Counted, Charge, Open, EncodeValue, CallsOf, Valid;
    match entries
    case NoEntries => CountsNothing(s);
    case Entry(k, v, rest) =>
      var x, y := |EncodeValue(CompactV2, k)|, |EncodeValue(CompactV2, v)|;
      var z := |EncodeEntries(CompactV2, key, elem, rest)|;
      var calls := CallsOfEntries(Rest(Rest(style)), key, elem, rest);
      var lengths := LengthsOfEntries(key, elem, rest);
      assert CallsOfEntries(style, key, elem, entries)
          == CallsOf(First(style), k) + (CallsOf(First(Rest(style)), v) + calls);
      assert |EncodeEntries(CompactV2, key, elem, entries)| == x + (y + z);
      CountsValue(First(style), k, s);
      var mid := State(s.lengths + LengthsOf(k), Charge(s.frames, x));
      ChargeKeeps(mid.lengths, s.frames, x);
      CountsValue(First(Rest(style)), v, mid);
      var after := State(mid.lengths + LengthsOf(v), Charge(mid.frames, y));
      ChargeKeeps(after.lengths, mid.frames, y);
      CountsEntries(Rest(Rest(style)), key, elem, rest, after);
      CountedThree(s, CallsOf(First(style), k), CallsOf(First(Rest(style)), v), calls,
                   LengthsOf(k), LengthsOf(v), lengths, x, y, z);
  }

  /** The state after a struct's last call: `total` bytes in its slot, its prefix and its bytes
      charged to the enclosing struct, if there is one. */
  function Closed(lengths: seq<nat>, outer: seq<Frame>, slot: nat, total: nat): State
    requires slot < |lengths|
  {
    State(lengths[slot := total], Charge(outer, |Encode(total)| + total))
  }

  lemma OuterCharged(lengths: seq<nat>, outer: seq<Frame>, k: nat, total: nat)
    requires outer != []
    ensures AddBytes(State(lengths, outer), k) == Some(State(lengths, Charge(outer, k)))
    ensures AddBytes(State(lengths, Charge(outer, k)), Int32(total)) == Some(State(lengths, Charge(outer, k + total)))
  {
    hide Int32;
    Int32Sum(Charge(outer, k)[|outer| - 1].current, total);
    ChargeTwice(outer, k, total);
  }

  lemma CountsStop(lengths: seq<nat>, outer: seq<Frame>, slot: nat, count: nat)
    requires slot < |lengths| && count + 1 < U32
    ensures EndStruct(State(lengths, outer + [Frame(slot, Int32(count))]))
         == Some(Closed(lengths, outer, slot, count + 1))
  {
    hide Int32, Unsigned, Encode, VarUInt32Length, Charge, AddBytes;
    var s := State(lengths, outer + [Frame(slot, Int32(count))]);
    var total := count + 1;
    assert s.frames[..|outer|] == outer;
    Int32Sum(count, 0);
    SmallUnsigned(count);
    SmallUnsigned(total);
    LengthIsThresholds(total);
    if outer != [] {
      OuterCharged(lengths[slot := total], outer, VarUInt32Length(total), total);
    } else {
      ChargeNothing(VarUInt32Length(total) + total);
    }
  }

  lemma ChargeNothing(count: nat)
    ensures Charge([], count) == []
  {
  }

  lemma ZeroFits()
    ensures Int32(0) == 0
  {
  }

  lemma SmallUnsigned(x: nat)
    requires x < U32
    ensures Unsigned(x, U32) == x
  {
  }

  /** The rest of a struct that has counted `count` bytes so far. */
  lemma {:induction false} CountsBody(style: Style, body: Body, lengths: seq<nat>, outer: seq<Frame>, slot: nat,
                                      count: nat)
    requires ValidBody(body) && slot < |lengths|
    requires count + |EncodeBody(CompactV2, body)| < U32
    ensures Run(Step, State(lengths, outer + [Frame(slot, Int32(count))]), CallsOfBody(style, body))
         == Some(Closed(lengths + LengthsOfBody(body), outer, slot, count + |EncodeBody(CompactV2, body)|))
    decreases body, 0
  {
    hide Closed, EndStruct, Int32, Encode, Run, Charge, EncodeFieldHeader, EncodeValue, CallsOf, LengthsOf, Valid;
    var s := State(lengths, outer + [Frame(slot, Int32(count))]);
    match body
    case Stop =>
      RunOne(Step, s, StructEnd);
      CountsStop(lengths, outer, slot, count);
      assert lengths + [] == lengths;
    case StopBase(next) =>
      RunCons(Step, s, BaseEnd, CallsOfBody(style, next));
      ChargeTop(lengths, outer, slot, count, 1);
      SimpleCall(s, BaseEnd, 1);
      CountsBody(style, next, lengths, outer, slot, count + 1);
    case Field(id, v, next) =>
      var rest := count + |EncodeFieldHeader(CompactV2, TypeOf(v), id)| + |EncodeValue(CompactV2, v)|;
      CountsField(First(style), id, v, CallsOfBody(Rest(style), next), lengths, outer, slot, count);
      CountsBody(Rest(style), next, lengths + LengthsOf(v), outer, slot, rest);
      assert lengths + LengthsOf(v) + LengthsOfBody(next) == lengths + (LengthsOf(v) + LengthsOfBody(next));
  }

  lemma CountsField(style: Style, id: nat, v: Value, next: seq<Call>,
                    lengths: seq<nat>, outer: seq<Frame>, slot: nat, count: nat)
    requires Valid(v) && id < U16 && slot < |lengths|
    requires |EncodeValue(CompactV2, v)| < U32
    ensures Run(Step, State(lengths, outer + [Frame(slot, Int32(count))]),
                [FieldBegin(TypeOf(v), id)] + (CallsOf(style, v) + next))
         == Run(Step,
                State(lengths + LengthsOf(v),
                      outer + [Frame(slot, Int32(count + |EncodeFieldHeader(CompactV2, TypeOf(v), id)|
                                                 + |EncodeValue(CompactV2, v)|))]),
                next)
    decreases v, 2
  {
    hide Int32, Run, EncodeValue, CallsOf, EncodeFieldHeader, Weight, Step, Charge, LengthsOf;
    var header := |EncodeFieldHeader(CompactV2, TypeOf(v), id)|;
    var size := |EncodeValue(CompactV2, v)|;
    var call := FieldBegin(TypeOf(v), id);
    var s := State(lengths, outer + [Frame(slot, Int32(count))]);
    var mid := State(lengths, outer + [Frame(slot, Int32(count + header))]);
    HeaderBytes(TypeOf(v), TypeOf(v), id, 0);
    RunCons(Step, s, call, CallsOf(style, v) + next);
    ChargeTop(lengths, outer, slot, count, header);
    SimpleCall(s, call, header);
    Int32Sum(count + header, 0);
    CountsValue(style, v, mid);
    ChargeTop(lengths + LengthsOf(v), outer, slot, count + header, size);
    RunConcat(Step, mid, CallsOf(style, v), next);
  }

  lemma ChargeTop(lengths: seq<nat>, outer: seq<Frame>, slot: nat, count: nat, more: nat)
    ensures Charge(outer + [Frame(slot, Int32(count))], more) == outer + [Frame(slot, Int32(count + more))]
  {
    hide Int32;
    Int32Sum(count, more);
    var frames := outer + [Frame(slot, Int32(count))];
    assert frames[..|outer|] == outer;
  }

  /** From an empty counter: the whole tree's lengths, nothing left open. Holds for every struct
      below 2^32 bytes although the running counts are signed 32-bit integers that may have
      wrapped around on the way. */
  lemma FirstPass(style: Style, body: Body)
    requires ValidBody(body) && |EncodeBody(CompactV2, body)| < U32
    ensures Run(Step, State([], []), CallsOfStruct(style, body)) == Some(State(LengthsOf(Struct(body)), []))
  {
    hide Int32, Encode, EncodeBody, CallsOfBody, LengthsOfBody, ValidBody;
    var total := |EncodeBody(CompactV2, body)|;
    assert Int32(0) == 0 by { ZeroFits(); }
    RunCons(Step, State([], []), StructBegin, CallsOfBody(style, body));
    assert State([], []).frames + [Frame(0, 0)] == [] + [Frame(0, Int32(0))];
    assert State([], []).lengths + [0] == [0];
    CountsBody(style, body, [0], [], 0, 0);
    assert ([0] + LengthsOfBody(body))[0 := total] == [total] + LengthsOfBody(body);
  }
}
