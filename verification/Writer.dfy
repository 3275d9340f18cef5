/** The writers of the three tagged binary protocols. Version 2 takes each struct's length from
    the queue its first pass has filled. */
module Writer {
  import opened Bytes
  import opened Varint
  import opened Wire
  import opened Calls
  import Counter

  /** `first` is the state of the first-pass writer, whose length list is the queue; `checks` are
      the positions at which the open structs have to end. */
  datatype State = State(output: seq<byte>, first: Counter.State, checks: seq<nat>)

  function Emit(s: State, e: seq<byte>): State {
    s.(output := s.output + e)
  }

  function BeginStruct(p: Protocol, s: State): Option<State> {
    if p != CompactV2 then Some(s)
    else if s.first.lengths == [] then None
    else
      var length := s.first.lengths[0];
      var output := s.output + Encode(length);
      Some(State(output, s.first.(lengths := s.first.lengths[1..]), s.checks + [|output| + length]))
  }

  /** The length check compares where the struct ends with where its prefix said it would. */
  function EndStruct(p: Protocol, s: State): Option<State> {
    var ended := Emit(s, [BT_STOP]);
    if p != CompactV2 then Some(ended)
    else if s.checks == [] || s.checks[|s.checks| - 1] != |ended.output| then None
    else Some(ended.(checks := s.checks[..|s.checks| - 1]))
  }

  /** A first pass is offered only to a version 2 writer whose queue is empty. */
  predicate OffersFirstPass(p: Protocol, s: State) {
    p == CompactV2 && s.first.lengths == []
  }

  function Step(p: Protocol, s: State, call: Call): Option<State> {
    match call
    case StructBegin => BeginStruct(p, s)
    case StructEnd => EndStruct(p, s)
    case BaseEnd => Some(Emit(s, [BT_STOP_BASE]))
    case FieldBegin(t, id) => Some(Emit(s, EncodeFieldHeader(p, t, id)))
    case ContainerBegin(count, elem) => Some(Emit(s, EncodeListHeader(p, elem, count)))
    case MapBegin(count, key, mapped) => Some(Emit(s, EncodeMapHeader(key, mapped, count)))
    case WriteNum(t, n) => Some(Emit(s, EncodeNum(p, t, n)))
    case WriteRaw(t, raw) => Some(Emit(s, EncodeRaw(t, raw)))
    case WriteBytes(bytes) => Some(Emit(s, bytes))
    case BondedBegin(nested) =>
      if !OffersFirstPass(p, s) then Some(s)
      else
        match Run(Counter.Step, s.first, nested)
        case None => None
        case Some(first) => Some(s.(first := first))
  }

  function Steps(p: Protocol): (State, Call) -> Option<State> {
    (s: State, call: Call) => Step(p, s, call)
  }

  class ProtocolWriter {
    const protocol: Protocol
    var output: seq<byte>
    /** Shares its length list with this writer. */
    const firstPassWriter: Counter.CompactBinaryCounter
    var lengthCheck: seq<nat>

    ghost function Now(): State
      reads this, firstPassWriter
    {
      State(output, firstPassWriter.Now(), lengthCheck)
    }

    constructor (p: Protocol)
      ensures protocol == p && fresh(firstPassWriter)
      ensures Now() == State([], Counter.State([], []), [])
    {
      protocol := p;
      output, lengthCheck := [], [];
      firstPassWriter := new Counter.CompactBinaryCounter();
    }

    method Put(e: seq<byte>)
      modifies this
      ensures Now() == Emit(old(Now()), e)
    {
      output := output + e;
    }

    method WriteStructBegin() returns (ok: bool)
      modifies this, firstPassWriter
      ensures Step(protocol, old(Now()), StructBegin) == if ok then Some(Now()) else None
    {
      if protocol == CompactV2 {
        if firstPassWriter.lengths == [] {
          return false;
        }
        var length := firstPassWriter.lengths[0];
        firstPassWriter.lengths := firstPassWriter.lengths[1..];
        output := output + Encode(length);
        lengthCheck := lengthCheck + [|output| + length];
      }
      ok := true;
    }

    method WriteStructEnd() returns (ok: bool)
      modifies this
      ensures Step(protocol, old(Now()), StructEnd) == if ok then Some(Now()) else None
    {
      output := output + [BT_STOP];
      if protocol == CompactV2 {
        if lengthCheck == [] {
          return false;
        }
        var expected := lengthCheck[|lengthCheck| - 1];
        lengthCheck := lengthCheck[..|lengthCheck| - 1];
        return |output| == expected;
      }
      ok := true;
    }

    method FirstPass(nested: seq<Call>) returns (ok: bool)
      modifies firstPassWriter
      ensures Step(protocol, old(Now()), BondedBegin(nested)) == if ok then Some(Now()) else None
    {
      ok := true;
      if protocol == CompactV2 && firstPassWriter.lengths == [] {
        ok := firstPassWriter.PerformAll(nested);
      }
    }

    method Perform(call: Call) returns (ok: bool)
      modifies this, firstPassWriter
      ensures Step(protocol, old(Now()), call) == if ok then Some(Now()) else None
    {
      ok := true;
      match call
      case StructBegin => ok := WriteStructBegin();
      case StructEnd => ok := WriteStructEnd();
      case BaseEnd => Put([BT_STOP_BASE]);
      case FieldBegin(t, id) => Put(EncodeFieldHeader(protocol, t, id));
      case ContainerBegin(count, elem) => Put(EncodeListHeader(protocol, elem, count));
      case MapBegin(count, key, mapped) => Put(EncodeMapHeader(key, mapped, count));
      case WriteNum(t, n) => Put(EncodeNum(protocol, t, n));
      case WriteRaw(t, raw) => Put(EncodeRaw(t, raw));
      case WriteBytes(bytes) => Put(bytes);
      case BondedBegin(nested) => ok := FirstPass(nested);
    }

    method PerformAll(calls: seq<Call>) returns (ok: bool)
      modifies this, firstPassWriter
      ensures Run(Steps(protocol), old(Now()), calls) == if ok then Some(Now()) else None
    {
      ghost var step := Steps(protocol);
      ok := true;
      var i := 0;
      while i < |calls|
        invariant 0 <= i <= |calls|
        invariant Run(step, old(Now()), calls) == Run(step, Now(), calls[i..])
      {
        assert calls[i..][0] == calls[i] && calls[i..][1..] == calls[i + 1..];
        ok := Perform(calls[i]);
        if !ok {
          return;
        }
        i := i + 1;
      }
    }
  }
}
