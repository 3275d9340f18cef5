/** The first pass of version 2: a writer that only counts, one frame per open struct, and leaves
    the struct lengths in the order the structs begin. */
module Counter {
  import opened Bytes
  import opened Varint
  import opened Input
  import opened Wire
  import opened Calls

  /** `slot` is the node of the length list reserved for the frame's struct. */
  datatype Frame = Frame(slot: nat, current: int)

  datatype State = State(lengths: seq<nat>, frames: seq<Frame>)

  /** 32-bit signed wrap-around. */
  function Int32(x: int): int {
    Signed(Unsigned(x, U32), U32)
  }

  function AddBytes(s: State, count: int): Option<State> {
    if s.frames == [] then None
    else
      var top := s.frames[|s.frames| - 1];
      Some(s.(frames := s.frames[..|s.frames| - 1] + [top.(current := Int32(top.current + count))]))
  }

  function EndStruct(s: State): Option<State> {
    if s.frames == [] then None
    else
      var top := s.frames[|s.frames| - 1];
      var structLength := Unsigned(Unsigned(top.current, U32) + 1, U32);
      if top.slot >= |s.lengths| then None
      else
        var popped := State(s.lengths[top.slot := structLength], s.frames[..|s.frames| - 1]);
        if popped.frames == [] then Some(popped)
        else
          match AddBytes(popped, VarUInt32Length(structLength))
          case None => None
          case Some(charged) => AddBytes(charged, Int32(structLength))
  }

  /** Bytes counted for a call that neither begins nor ends a struct. */
  function Weight(call: Call): int {
    match call
    case BaseEnd => 1
    case FieldBegin(_, id) => if id <= 5 then 1 else if id <= 0xFF then 2 else 3
    case ContainerBegin(count, _) => if count < 7 then 1 else 1 + VarUInt32Length(count)
    case MapBegin(count, _, _) => 2 + VarUInt32Length(count)
    case WriteNum(t, n) =>
      var m := Modulus(Size(t));
      var u := if IsSigned(t) then EncodeZigzag(n, m) else Unsigned(n, m);
      if Size(t) == 1 then 1
      else if Size(t) == 2 then VarUInt16Length(u)
      else if Size(t) == 4 then VarUInt32Length(u)
      else VarUInt64Length(u)
    case WriteRaw(t, raw) =>
      if t == BT_STRING then VarUInt32Length(|raw|) + |raw|
      else if t == BT_WSTRING then VarUInt32Length(|raw| / 2) + |raw| / 2 * 2
      else if t == BT_FLOAT then 4
      else 8
    case WriteBytes(bytes) => |bytes|
    case _ => 0
  }

  function Step(s: State, call: Call): Option<State> {
    match call
    case StructBegin => Some(State(s.lengths + [0], s.frames + [Frame(|s.lengths|, 0)]))
    case StructEnd => EndStruct(s)
    case BondedBegin(_) => Some(s)
    case _ => AddBytes(s, Weight(call))
  }

  class CompactBinaryCounter {
    var lengths: seq<nat>
    var counterStack: seq<Frame>

    ghost function Now(): State
      reads this
    {
      State(lengths, counterStack)
    }

    constructor ()
      ensures Now() == State([], [])
    {
      lengths, counterStack := [], [];
    }

    method WriteStructBegin()
      modifies this
      ensures Step(old(Now()), StructBegin) == Some(Now())
    {
      counterStack := counterStack + [Frame(|lengths|, 0)];
      lengths := lengths + [0];
    }

    /** Charges the open struct; fails when none is open. */
    method Count(bytes: int) returns (ok: bool)
      modifies this
      ensures AddBytes(old(Now()), bytes) == if ok then Some(Now()) else None
    {
      if counterStack == [] {
        return false;
      }
      var top := counterStack[|counterStack| - 1];
      counterStack := counterStack[..|counterStack| - 1] + [top.(current := Int32(top.current + bytes))];
      ok := true;
    }

    method WriteStructEnd() returns (ok: bool)
      modifies this
      ensures Step(old(Now()), StructEnd) == if ok then Some(Now()) else None
    {
      if counterStack == [] {
        return false;
      }
      var frame := counterStack[|counterStack| - 1];
      var structLength := Unsigned(Unsigned(frame.current, U32) + 1, U32);
      if frame.slot >= |lengths| {
        return false;
      }
      lengths := lengths[frame.slot := structLength];
      counterStack := counterStack[..|counterStack| - 1];
      ok := true;
      if |counterStack| > 0 {
        ok := Count(VarUInt32Length(structLength));
        ok := Count(Int32(structLength));
      }
    }

    method Perform(call: Call) returns (ok: bool)
      modifies this
      ensures Step(old(Now()), call) == if ok then Some(Now()) else None
    {
      match call
      case StructBegin =>
        WriteStructBegin();
        ok := true;
      case StructEnd => ok := WriteStructEnd();
      case BondedBegin(_) => ok := true;
      case _ => ok := Count(Weight(call));
    }

    method PerformAll(calls: seq<Call>) returns (ok: bool)
      modifies this
      ensures Run(Step, old(Now()), calls) == if ok then Some(Now()) else None
    {
      ok := true;
      var i := 0;
      while i < |calls|
        invariant 0 <= i <= |calls|
        invariant Run(Step, old(Now()), calls) == Run(Step, Now(), calls[i..])
      {
        assert calls[i..][0] == calls[i] && calls[i..][1..] == calls[i + 1..];
        ok := Perform(calls[i]);
        if !ok {
          return;
        }
        i := i + 1;
      }
    }
  }

  // ------------------------------------------------------ what the lengths are

  /** The length of every struct in `v`, in the order the structs begin: the number of bytes from
      just after its own prefix to just past its own BT_STOP. */
  function LengthsOf(v: Value): seq<nat>
    requires Valid(v)
    decreases v
  {
    match v
    case Num(_, _) => []
    case Raw(_, _) => []
    case List(_, elem, items) => LengthsOfItems(elem, items)
    case Map(key, elem, entries) => LengthsOfEntries(key, elem, entries)
    case Struct(body) => [|EncodeBody(CompactV2, body)|] + LengthsOfBody(body)
  }

  function LengthsOfItems(elem: byte, items: Items): seq<nat>
    requires ValidItems(elem, items)
    decreases items
  {
    match items
    case NoItems => []
    case Item(head, tail) => LengthsOf(head) + LengthsOfItems(elem, tail)
  }

  function LengthsOfEntries(key: byte, elem: byte, entries: Entries): seq<nat>
    requires ValidEntries(key, elem, entries)
    decreases entries
  {
    match entries
    case NoEntries => []
    case Entry(k, v, rest) => LengthsOf(k) + (LengthsOf(v) + LengthsOfEntries(key, elem, rest))
  }

  function LengthsOfBody(body: Body): seq<nat>
    requires ValidBody(body)
    decreases body
  {
    match body
    case Stop => []
    case StopBase(next) => LengthsOfBody(next)
    case Field(_, v, next) => LengthsOf(v) + LengthsOfBody(next)
  }

  /** `frames` with `count` more bytes in the innermost one. */
  function Charge(frames: seq<Frame>, count: nat): seq<Frame> {
    if frames == [] then []
    else
      var top := frames[|frames| - 1];
      frames[..|frames| - 1] + [top.(current := Int32(top.current + count))]
  }

  lemma Int32Shift(x: int, k: int)
    ensures Unsigned(x + k * U32, U32) == Unsigned(x, U32)
  {
  }

  lemma Int32Congruent(x: int) returns (k: int)
    ensures Int32(x) == x + k * U32
  {
    var u := Unsigned(x, U32);
    k := -(x / U32);
    if 2 * u >= U32 {
      k := k - 1;
    }
  }

  lemma Int32Sum(x: int, y: int)
    ensures Int32(Int32(x) + y) == Int32(x + y)
    ensures Int32(x + Int32(y)) == Int32(x + y)
    ensures Unsigned(Int32(x), U32) == Unsigned(x, U32)
  {
    var j := Int32Congruent(x);
    var k := Int32Congruent(y);
    hide Unsigned;
    Int32Shift(x + y, j);
    Int32Shift(x + y, k);
    Int32Shift(x, j);
  }

  lemma ChargeTwice(frames: seq<Frame>, x: nat, y: nat)
    ensures Charge(Charge(frames, x), y) == Charge(frames, x + y)
    ensures frames != [] ==> AddBytes(State([], frames), x) == Some(State([], Charge(frames, x)))
  {
    if frames != [] {
      Int32Sum(frames[|frames| - 1].current + x, y);
      assert Charge(frames, x)[..|frames| - 1] == frames[..|frames| - 1];
    }
  }

  /** Every simple call is counted as exactly the bytes the version 2 writer emits for it. */
  lemma CallBytes(t: byte, n: int)
    requires Numeric(t) && InRange(t, n)
    ensures Weight(WriteNum(t, n)) == |EncodeNum(CompactV2, t, n)|
  {
    var m := Modulus(Size(t));
    LengthIsThresholds(if IsSigned(t) then EncodeZigzag(n, m) else Unsigned(n, m));
  }

  lemma RawBytes(t: byte, raw: seq<byte>)
    requires Opaque(t) && OpaqueShape(t, raw)
    ensures Weight(WriteRaw(t, raw)) == |EncodeRaw(t, raw)|
  {
    LengthIsThresholds(|raw|);
    LengthIsThresholds(|raw| / 2);
  }

  lemma HeaderBytes(t: byte, key: byte, id: nat, count: nat)
    requires DataType(t) && DataType(key) && id < U16 && count <= INT_MAX
    ensures Weight(FieldBegin(t, id)) == |EncodeFieldHeader(CompactV2, t, id)|
    ensures Weight(ContainerBegin(count, t)) == |EncodeListHeader(CompactV2, t, count)|
    ensures Weight(MapBegin(count, key, t)) == |EncodeMapHeader(key, t, count)|
  {
    LengthIsThresholds(count);
  }
}
