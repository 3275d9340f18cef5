/** The two passes of version 2 stay in lockstep: for every value tree the second pass takes from
    the queue exactly what the first put there, every prefix is the true distance to the end of
    its struct, and the queue is empty at the end and at no bonded value before that. */
module Lockstep {
  import opened Bytes
  import opened Varint
  import opened Wire
  import opened Calls
  import opened CounterLengths
  import opened Writer

  /** The writer in its second pass: asking for a first pass, which would start one over, is an
      error here. */
  function SecondPass(p: Protocol): (State, Call) -> Option<State> {
    (s: State, call: Call) => if call.BondedBegin? && OffersFirstPass(p, s) then None else Step(p, s, call)
  }

  /** The queue with `lengths` still to be consumed before `rest`; other protocols have none. */
  function Pending(p: Protocol, s: State, lengths: seq<nat>): State {
    if p == CompactV2 then s.(first := s.first.(lengths := lengths + s.first.lengths)) else s
  }

  /** From a queue that starts with `lengths`, `calls` emit `e` and leave the rest of the queue. */
  ghost predicate Writes(p: Protocol, s: State, calls: seq<Call>, lengths: seq<nat>, e: seq<byte>) {
    Run(SecondPass(p), Pending(p, s, lengths), calls) == Some(Emit(s, e))
  }

  lemma WritesConcat(p: Protocol, s: State, a: seq<Call>, b: seq<Call>,
                     la: seq<nat>, lb: seq<nat>, ea: seq<byte>, eb: seq<byte>)
    requires Writes(p, Pending(p, s, lb), a, la, ea)
    requires Writes(p, Emit(s, ea), b, lb, eb)
    ensures Writes(p, s, a + b, la + lb, ea + eb)
  {
    assert la + (lb + s.first.lengths) == la + lb + s.first.lengths;
    assert Pending(p, Pending(p, s, lb), la) == Pending(p, s, la + lb);
    RunConcat(SecondPass(p), Pending(p, s, la + lb), a, b);
    assert Emit(Pending(p, s, lb), ea) == Pending(p, Emit(s, ea), lb);
    assert s.output + ea + eb == s.output + (ea + eb);
  }

  lemma WritesCall(p: Protocol, s: State, call: Call, e: seq<byte>)
    requires !call.BondedBegin? && Step(p, s, call) == Some(Emit(s, e))
    ensures Writes(p, s, [call], [], e)
  {
    RunOne(SecondPass(p), s, call);
    assert [] + s.first.lengths == s.first.lengths;
  }

  lemma WritesNothing(p: Protocol, s: State)
    ensures Writes(p, s, [], [], [])
  {
    assert [] + s.first.lengths == s.first.lengths && s.output + [] == s.output;
  }

  lemma {:induction false} WritesValue(p: Protocol, style: Style, v: Value, s: State)
    requires Valid(v)
    ensures Writes(p, s, CallsOf(style, v), Counter.LengthsOf(v), EncodeValue(p, v))
    decreases v, 1
  {
    hide Writes, Pending, EncodeNum, EncodeRaw, EncodeListHeader, EncodeMapHeader;
    match v
    case Num(t, n) => WritesCall(p, s, WriteNum(t, n), EncodeNum(p, t, n));
    case Raw(t, raw) => WritesCall(p, s, WriteRaw(t, raw), EncodeRaw(t, raw));
    case List(_, elem, items) =>
      var header := EncodeListHeader(p, elem, Count(items));
      var lengths := Counter.LengthsOfItems(elem, items);
      WritesCall(p, Pending(p, s, lengths), ContainerBegin(Count(items), elem), header);
      WritesList(p, style, elem, items, Emit(s, header));
      WritesConcat(p, s, [ContainerBegin(Count(items), elem)], CallsOfList(style, elem, items),
                   [], lengths, header, EncodeItems(p, elem, items));
      assert [] + lengths == lengths;
    case Map(key, elem, entries) =>
      var header := EncodeMapHeader(key, elem, CountEntries(entries));
      var lengths := Counter.LengthsOfEntries(key, elem, entries);
      WritesCall(p, Pending(p, s, lengths), MapBegin(CountEntries(entries), key, elem), header);
      WritesEntries(p, style, key, elem, entries, Emit(s, header));
      WritesConcat(p, s, [MapBegin(CountEntries(entries), key, elem)], CallsOfEntries(style, key, elem, entries),
                   [], lengths, header, EncodeEntries(p, key, elem, entries));
      assert [] + lengths == lengths;
    case Struct(body) =>
      WritesStruct(p, style, body, s);
      if style.bonded {
        WritesBonded(p, s, CallsOfStruct(style, body), Counter.LengthsOf(v), EncodeValue(p, v));
      } else {
        assert [] + CallsOfStruct(style, body) == CallsOfStruct(style, body);
      }
  }

  /** A bonded value's own length is still in the queue when it is serialized, so no first pass
      is offered. */
  lemma WritesBonded(p: Protocol, s: State, calls: seq<Call>, lengths: seq<nat>, e: seq<byte>)
    requires Writes(p, s, calls, lengths, e) && lengths != []
    ensures Writes(p, s, [BondedBegin(calls)] + calls, lengths, e)
  {
    RunCons(SecondPass(p), Pending(p, s, lengths), BondedBegin(calls), calls);
  }

  lemma {:induction false} WritesList(p: Protocol, style: Style, elem: byte, items: Items, s: State)
    requires ValidItems(elem, items)
    ensures Writes(p, s, CallsOfList(style, elem, items), Counter.LengthsOfItems(elem, items),
                   EncodeItems(p, elem, items))
    decreases items, 1
  {
    if ByteType(elem) && style.bulk {
      ByteItems(p, elem, items);
      NoNestedLengths(elem, items);
      WritesCall(p, s, WriteBytes(ItemBytes(elem, items)), ItemBytes(elem, items));
    } else {
      WritesItems(p, style, elem, items, s);
    }
  }

  lemma {:induction false} WritesItems(p: Protocol, style: Style, elem: byte, items: Items, s: State)
    requires ValidItems(elem, items)
    ensures Writes(p, s, CallsOfItems(style, elem, items), Counter.LengthsOfItems(elem, items),
                   EncodeItems(p, elem, items))
    decreases items, 0
  {
    hide Writes, Pending, EncodeValue, CallsOf, Valid;
    match items
    case NoItems => WritesNothing(p, s);
    case Item(head, tail) =>
      WritesValue(p, First(style), head, Pending(p, s, Counter.LengthsOfItems(elem, tail)));
      WritesItems(p, Rest(style), elem, tail, Emit(s, EncodeValue(p, head)));
      WritesConcat(p, s, CallsOf(First(style), head), CallsOfItems(Rest(style), elem, tail), Counter.LengthsOf(head),
                   Counter.LengthsOfItems(elem, tail), EncodeValue(p, head), EncodeItems(p, elem, tail));
  }

  lemma {:induction false} WritesEntries(p: Protocol, style: Style, key: byte, elem: byte, entries: Entries, s: State)
    requires ValidEntries(key, elem, entries)
    ensures Writes(p, s, CallsOfEntries(style, key, elem, entries), Counter.LengthsOfEntries(key, elem, entries),
                   EncodeEntries(p, key, elem, entries))
    decreases entries, 0
  {
    hide Writes, Pending, EncodeValue, CallsOf, Valid;
    match entries
    case NoEntries => WritesNothing(p, s);
    case Entry(k, v, rest) =>
      var lv, lr := Counter.LengthsOf(v), Counter.LengthsOfEntries(key, elem, rest);
      var s1 := Emit(s, EncodeValue(p, k));
      var calls := CallsOfEntries(Rest(Rest(style)), key, elem, rest);
      WritesValue(p, First(style), k, Pending(p, s, lv + lr));
      WritesValue(p, First(Rest(style)), v, Pending(p, s1, lr));
      WritesEntries(p, Rest(Rest(style)), key, elem, rest, Emit(s1, EncodeValue(p, v)));
      WritesConcat(p, s1, CallsOf(First(Rest(style)), v), calls, lv, lr,
                   EncodeValue(p, v), EncodeEntries(p, key, elem, rest));
      WritesConcat(p, s, CallsOf(First(style), k), CallsOf(First(Rest(style)), v) + calls,
                   Counter.LengthsOf(k), lv + lr,
                   EncodeValue(p, k), EncodeValue(p, v) + EncodeEntries(p, key, elem, rest));
  }

  /** Inside a struct whose end is due at `end`. */
  function Expecting(p: Protocol, s: State, end: nat): State {
    if p == CompactV2 then s.(checks := s.checks + [end]) else s
  }

  lemma BeginsStruct(p: Protocol, s: State, length: nat, lengths: seq<nat>)
    ensures BeginStruct(p, Pending(p, s, [length] + lengths))
         == Some(Expecting(p, Pending(p, Emit(s, EncodeLength(p, length)), lengths),
                           |s.output| + |EncodeLength(p, length)| + length))
  {
    hide Encode;
    if p == CompactV2 {
      var queue := [length] + lengths + s.first.lengths;
      assert queue == [length] + (lengths + s.first.lengths);
      assert queue[0] == length && queue[1..] == lengths + s.first.lengths;
    } else {
      assert s.output + [] == s.output;
    }
  }

  lemma WritesStruct(p: Protocol, style: Style, body: Body, s: State)
    requires ValidBody(body)
    ensures Writes(p, s, CallsOfStruct(style, body), Counter.LengthsOf(Struct(body)), EncodeValue(p, Struct(body)))
    decreases body, 1
  {
    hide Run, EncodeBody, Counter.LengthsOfBody, CallsOfBody, ValidBody, EncodeLength, BeginStruct, Pending, Expecting;
    var lengths, e := Counter.LengthsOfBody(body), EncodeBody(p, body);
    var prefix := EncodeLength(p, |e|);
    var start := Pending(p, s, [|e|] + lengths);
    RunCons(SecondPass(p), start, StructBegin, CallsOfBody(style, body));
    BeginsStruct(p, s, |e|, lengths);
    WritesBody(p, style, body, Emit(s, prefix), |s.output| + |prefix| + |e|);
    assert s.output + prefix + e == s.output + (prefix + e);
    assert EncodeBody(CompactV2, body) == e || p != CompactV2;
    PendingOther(p, s, Counter.LengthsOf(Struct(body)), [|e|] + lengths);
  }

  lemma PendingOther(p: Protocol, s: State, a: seq<nat>, b: seq<nat>)
    requires a == b || p != CompactV2
    ensures Pending(p, s, a) == Pending(p, s, b)
  {
  }

  /** The rest of a struct, ending where it is expected to. */
  lemma {:induction false} WritesBody(p: Protocol, style: Style, body: Body, s: State, end: nat)
    requires ValidBody(body) && end == |s.output| + |EncodeBody(p, body)|
    ensures Run(SecondPass(p), Expecting(p, Pending(p, s, Counter.LengthsOfBody(body)), end), CallsOfBody(style, body))
         == Some(Emit(s, EncodeBody(p, body)))
    decreases body, 0
  {
    hide Run, EncodeFieldHeader, EncodeValue, CallsOf, Counter.LengthsOf, Valid;
    match body
    case Stop =>
      var now := Expecting(p, Pending(p, s, []), end);
      RunOne(SecondPass(p), now, StructEnd);
      assert [] + s.first.lengths == s.first.lengths;
      if p == CompactV2 {
        assert (s.checks + [end])[..|s.checks|] == s.checks;
      }
    case StopBase(next) =>
      var now := Expecting(p, Pending(p, s, Counter.LengthsOfBody(next)), end);
      RunCons(SecondPass(p), now, BaseEnd, CallsOfBody(style, next));
      WritesBody(p, style, next, Emit(s, [BT_STOP_BASE]), end);
      assert s.output + [BT_STOP_BASE] + EncodeBody(p, next) == s.output + EncodeBody(p, body);
    case Field(id, v, next) =>
      WritesField(p, First(style), id, v, CallsOfBody(Rest(style), next), s, Counter.LengthsOfBody(next), end);
      var e := EncodeFieldHeader(p, TypeOf(v), id) + EncodeValue(p, v);
      assert EncodeBody(p, body) == e + EncodeBody(p, next);
      WritesBody(p, Rest(style), next, Emit(s, e), end);
      assert s.output + e + EncodeBody(p, next) == s.output + EncodeBody(p, body);
  }

  lemma WritesField(p: Protocol, style: Style, id: nat, v: Value, next: seq<Call>, s: State, rest: seq<nat>, end: nat)
    requires Valid(v) && id < U16
    ensures Run(SecondPass(p), Expecting(p, Pending(p, s, Counter.LengthsOf(v) + rest), end),
                [FieldBegin(TypeOf(v), id)] + (CallsOf(style, v) + next))
         == Run(SecondPass(p),
                Expecting(p, Pending(p, Emit(s, EncodeFieldHeader(p, TypeOf(v), id) + EncodeValue(p, v)), rest), end),
                next)
    decreases v, 2
  {
    hide Run, EncodeFieldHeader, EncodeValue, CallsOf, Counter.LengthsOf, Valid;
    var header := EncodeFieldHeader(p, TypeOf(v), id);
    var s0 := Expecting(p, Pending(p, s, rest), end);
    var lengths := Counter.LengthsOf(v);
    assert lengths + rest + s.first.lengths == lengths + (rest + s.first.lengths);
    RunCons(SecondPass(p), Pending(p, s0, lengths), FieldBegin(TypeOf(v), id), CallsOf(style, v) + next);
    WritesValue(p, style, v, Emit(s0, header));
    RunConcat(SecondPass(p), Pending(p, Emit(s0, header), lengths), CallsOf(style, v), next);
    assert s.output + header + EncodeValue(p, v) == s.output + (header + EncodeValue(p, v));
  }

  /** A run that never asks to start over is a run of the writer. */
  lemma {:induction false} SecondPassIsRun(p: Protocol, s: State, calls: seq<Call>)
    requires Run(SecondPass(p), s, calls).Some?
    ensures Run(Steps(p), s, calls) == Run(SecondPass(p), s, calls)
    decreases |calls|
  {
    if calls != [] {
      SecondPassIsRun(p, SecondPass(p)(s, calls[0]).value, calls[1..]);
    }
  }

  /** What serializing a root object does to an idle writer: the first pass if the writer offers
      one, then the calls themselves. The outcome is the direct encoding and an idle writer again,
      with any choice of bonded members and array segments. */
  lemma TwoPasses(p: Protocol, style: Style, body: Body, s: State)
    requires ValidBody(body)
    requires p == CompactV2 ==> |EncodeBody(CompactV2, body)| < U32
    requires s.first == Counter.State([], [])
    ensures var calls := CallsOfStruct(style, body);
            Run(Steps(p), s, [BondedBegin(calls)] + calls) == Some(Emit(s, EncodeValue(p, Struct(body))))
  {
    hide EncodeBody, Counter.LengthsOfBody, CallsOfBody, ValidBody, EncodeValue;
    var calls := CallsOfStruct(style, body);
    RunCons(Steps(p), s, BondedBegin(calls), calls);
    var lengths := Counter.LengthsOf(Struct(body));
    if p == CompactV2 {
      FirstPass(style, body);
      assert lengths + [] == lengths;
    }
    assert Step(p, s, BondedBegin(calls)) == Some(Pending(p, s, lengths));
    WritesStruct(p, style, body, s);
    SecondPassIsRun(p, Pending(p, s, lengths), calls);
  }
}
