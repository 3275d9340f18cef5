/** Pass one of the C++ writer: the struct lengths that pass zero has left in an array are taken
    through a pointer that only moves forward. A set pointer also keeps nested bonded values from
    starting a pass zero of their own. */
module PassOne {
  import opened Bytes
  import opened Varint
  import opened Wire
  import opened Calls
  import Counter
  import Lockstep
  import PassZero
  import Writer

  datatype State = State(output: seq<byte>, it: Option<nat>)

  /** What a call other than a struct's begin or end emits, which is the same in C# and C++. */
  function Plain(call: Call): (e: seq<byte>)
    ensures !call.StructBegin? && !call.StructEnd? && !call.BondedBegin? ==>
              forall s :: Writer.Step(CompactV2, s, call) == Some(Writer.Emit(s, e))
  {
    match call
    case BaseEnd => [BT_STOP_BASE]
    case FieldBegin(t, id) => EncodeFieldHeader(CompactV2, t, id)
    case ContainerBegin(count, elem) => EncodeListHeader(CompactV2, elem, count)
    case MapBegin(count, key, mapped) => EncodeMapHeader(key, mapped, count)
    case WriteNum(t, n) => EncodeNum(CompactV2, t, n)
    case WriteRaw(t, raw) => EncodeRaw(t, raw)
    case WriteBytes(bytes) => bytes
    case _ => []
  }

  /** Following a null pointer, running past the array or starting over is an error. */
  function Step(lengths: seq<nat>, s: State, call: Call): Option<State> {
    match call
    case StructBegin =>
      if s.it == None || s.it.value >= |lengths| then None
      else Some(State(s.output + Encode(lengths[s.it.value]), Some(s.it.value + 1)))
    case StructEnd => Some(s.(output := s.output + [BT_STOP]))
    case BondedBegin(_) => if s.it == None then None else Some(s)
    case _ => Some(s.(output := s.output + Plain(call)))
  }

  function Steps(lengths: seq<nat>): (State, Call) -> Option<State> {
    (s: State, call: Call) => Step(lengths, s, call)
  }

  /** The array from the pointer on is the other writer's queue. */
  ghost predicate Related(lengths: seq<nat>, w: Writer.State, s: State) {
    && s.output == w.output && s.it.Some? && s.it.value <= |lengths|
    && w.first.lengths == lengths[s.it.value..]
  }

  lemma {:induction false} Follows(lengths: seq<nat>, w: Writer.State, s: State, calls: seq<Call>)
    requires Related(lengths, w, s) && Run(Lockstep.SecondPass(CompactV2), w, calls).Some?
    ensures Run(Steps(lengths), s, calls).Some?
    ensures Related(lengths, Run(Lockstep.SecondPass(CompactV2), w, calls).value, Run(Steps(lengths), s, calls).value)
    decreases |calls|
  {
    if calls != [] {
      FollowsOne(lengths, w, s, calls[0]);
      Follows(lengths, Lockstep.SecondPass(CompactV2)(w, calls[0]).value, Step(lengths, s, calls[0]).value, calls[1..]);
    }
  }

  lemma FollowsOne(lengths: seq<nat>, w: Writer.State, s: State, call: Call)
    requires Related(lengths, w, s) && Lockstep.SecondPass(CompactV2)(w, call).Some?
    ensures Step(lengths, s, call).Some?
    ensures Related(lengths, Lockstep.SecondPass(CompactV2)(w, call).value, Step(lengths, s, call).value)
  {
    hide Encode, EncodeFieldHeader, EncodeListHeader, EncodeMapHeader, EncodeNum, EncodeRaw, Plain, Run;
    if !call.StructBegin? && !call.StructEnd? && !call.BondedBegin? {
      var e := Plain(call);
      assert Writer.Step(CompactV2, w, call) == Some(Writer.Emit(w, e));
    }
  }

  /** Pass one over the array of pass zero emits the direct encoding and uses every length up. */
  lemma PassOne(style: Style, body: Body, output: seq<byte>)
    requires ValidBody(body)
    ensures var lengths := Counter.LengthsOf(Struct(body));
            Run(Steps(lengths), State(output, Some(0)), CallsOfStruct(style, body))
            == Some(State(output + EncodeValue(CompactV2, Struct(body)), Some(|lengths|)))
  {
    hide EncodeValue, CallsOfStruct, Run, ValidBody;
    var lengths := Counter.LengthsOf(Struct(body));
    var w := Writer.State(output, Counter.State([], []), []);
    Lockstep.WritesStruct(CompactV2, style, body, w);
    var start := Lockstep.Pending(CompactV2, w, lengths);
    assert start.first.lengths == lengths + [] == lengths == lengths[0..];
    Follows(lengths, start, State(output, Some(0)), CallsOfStruct(style, body));
  }

  class CompactBinaryWriter {
    var output: seq<byte>
    var it: Option<nat>
    var lengths: seq<nat>

    ghost function Now(): State
      reads this
    {
      State(output, it)
    }

    constructor ()
      ensures Now() == State([], None)
    {
      output, it, lengths := [], None, [];
    }

    method LengthBegin() returns (ok: bool)
      modifies this`output, this`it
      ensures Step(lengths, old(Now()), StructBegin) == if ok then Some(Now()) else None
    {
      if it == None || it.value >= |lengths| {
        return false;
      }
      output := output + Encode(lengths[it.value]);
      it := Some(it.value + 1);
      ok := true;
    }

    method PerformAll(calls: seq<Call>) returns (ok: bool)
      modifies this`output, this`it
      ensures Run(Steps(lengths), old(Now()), calls) == if ok then Some(Now()) else None
    {
      hide Encode, Plain;
      ghost var step := Steps(lengths);
      ok := true;
      var i := 0;
      while i < |calls|
        invariant 0 <= i <= |calls|
        invariant Run(step, old(Now()), calls) == Run(step, Now(), calls[i..])
      {
        assert calls[i..][0] == calls[i] && calls[i..][1..] == calls[i + 1..];
        match calls[i] {
          case StructBegin => ok := LengthBegin();
          case StructEnd => output := output + [BT_STOP];
          case BondedBegin(_) => ok := it.Some?;
          case _ => output := output + Plain(calls[i]);
        }
        if !ok {
          return;
        }
        i := i + 1;
      }
    }

    /** Serializes a struct in two passes; the pointer is cleared again at the end. */
    method DoublePassApply(style: Style, body: Body) returns (ok: bool)
      requires ValidBody(body) && it == None
      modifies this
      ensures |EncodeBody(CompactV2, body)| < U32 ==>
                ok && Now() == State(old(output) + EncodeValue(CompactV2, Struct(body)), None)
    {
      hide EncodeBody, EncodeValue, ValidBody, CallsOfStruct;
      var calls := CallsOfStruct(style, body);
      var pass0 := new PassZero.PassZeroWriter();
      if |EncodeBody(CompactV2, body)| < U32 {
        PassZero.PassZero(style, body);
        PassOne(style, body, output);
      }
      ok := pass0.PerformAll(calls);
      if !ok {
        return;
      }
      lengths, it := pass0.lengths, Some(0);
      ok := PerformAll(calls);
      it := None;
    }
  }
}
