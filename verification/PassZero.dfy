/** The C++ version of the two passes: pass zero keeps one running count, a stack of indices and a
    flat array in which an open struct's slot holds the count at its beginning; pass one walks a
    pointer through that array. */
module PassZero {
  import opened Bytes
  import opened Varint
  import opened Input
  import opened Wire
  import opened Calls
  import Counter
  import CounterLengths

  datatype State = State(count: nat, stack: seq<nat>, lengths: seq<nat>)

  function VarBytes(maxBytes: nat, value: nat): nat
    requires maxBytes >= 1
  {
    CountedLength(1, maxBytes, value / 128)
  }

  /** Bytes the counting stream adds for a call that neither begins nor ends a struct. */
  function Weight(call: Call): nat {
    match call
    case BaseEnd => 1
    case FieldBegin(_, id) => if id <= 5 then 1 else if id <= 0xFF then 1 + 1 else 1 + 2
    case ContainerBegin(count, _) => if count < 7 then 1 else 1 + VarBytes(5, count)
    case MapBegin(count, _, _) => 1 + 1 + VarBytes(5, count)
    case WriteNum(t, n) =>
      var m := Modulus(Size(t));
      var u := if IsSigned(t) then EncodeZigzag(n, m) else Unsigned(n, m);
      if Size(t) == 1 then 1
      else VarBytes(if Size(t) == 2 then 3 else if Size(t) == 4 then 5 else 10, u)
    case WriteRaw(t, raw) =>
      if t == BT_STRING then VarBytes(5, |raw|) + |raw|
      else if t == BT_WSTRING then VarBytes(5, |raw| / 2) + |raw| / 2 * 2
      else if t == BT_FLOAT then 4
      else 8
    case WriteBytes(bytes) => |bytes|
    case _ => 0
  }

  function AddBytes(s: State, n: nat): State {
    s.(count := Unsigned(s.count + n, U32))
  }

  function EndStruct(s: State): Option<State> {
    if s.stack == [] then None
    else
      var slot := s.stack[|s.stack| - 1];
      if slot >= |s.lengths| then None
      else
        var stopped := AddBytes(s, 1);
        var length := Unsigned(stopped.count - s.lengths[slot], U32);
        Some(AddBytes(State(stopped.count, s.stack[..|s.stack| - 1], s.lengths[slot := length]), VarBytes(5, length)))
  }

  function Step(s: State, call: Call): Option<State> {
    match call
    case StructBegin => Some(State(s.count, s.stack + [|s.lengths|], s.lengths + [s.count]))
    case StructEnd => EndStruct(s)
    case BondedBegin(_) => Some(s)
    case _ => Some(AddBytes(s, Weight(call)))
  }

  class PassZeroWriter {
    var count: nat
    var stack: seq<nat>
    var lengths: seq<nat>

    ghost function Now(): State
      reads this
    {
      State(count, stack, lengths)
    }

    constructor ()
      ensures Now() == State(0, [], [])
    {
      count, stack, lengths := 0, [], [];
    }

    method Count(n: nat)
      modifies this
      ensures Now() == AddBytes(old(Now()), n)
    {
      count := Unsigned(count + n, U32);
    }

    method LengthBegin()
      modifies this
      ensures Step(old(Now()), StructBegin) == Some(Now())
    {
      stack := stack + [|lengths|];
      lengths := lengths + [count];
    }

    method WriteStructEnd() returns (ok: bool)
      modifies this
      ensures Step(old(Now()), StructEnd) == if ok then Some(Now()) else None
    {
      if stack == [] || stack[|stack| - 1] >= |lengths| {
        return false;
      }
      Count(1);
      var slot := stack[|stack| - 1];
      stack := stack[..|stack| - 1];
      lengths := lengths[slot := Unsigned(count - lengths[slot], U32)];
      Count(VarBytes(5, lengths[slot]));
      ok := true;
    }

    method PerformAll(calls: seq<Call>) returns (ok: bool)
      modifies this
      ensures Run(Step, old(Now()), calls) == if ok then Some(Now()) else None
    {
      ok := true;
      var i := 0;
      while i < |calls|
        invariant 0 <= i <= |calls|
        invariant Run(Step, old(Now()), calls) == Run(Step, Now(), calls[i..])
      {
        assert calls[i..][0] == calls[i] && calls[i..][1..] == calls[i + 1..];
        match calls[i] {
          case StructBegin => LengthBegin();
          case StructEnd => ok := WriteStructEnd();
          case BondedBegin(_) =>
          case _ => Count(Weight(calls[i]));
        }
        if !ok {
          return;
        }
        i := i + 1;
      }
    }
  }

  // -------------------------------------- agreement with the per-frame counter

  predicate Congruent(x: int, y: int) { (x - y) % U32 == 0 }

  lemma Congruence(x: int, y: int, k: int)
    requires x == y + k * U32
    ensures Congruent(x, y)
  {
  }

  lemma Quotient(x: int, y: int) returns (k: int)
    requires Congruent(x, y)
    ensures x == y + k * U32
  {
    k := (x - y) / U32;
  }

  lemma CongruentUnsigned(x: int)
    ensures Congruent(Unsigned(x, U32), x)
    ensures Congruent(Counter.Int32(x), x)
  {
    Congruence(Unsigned(x, U32), x, -(x / U32));
    var k := Counter.Int32Congruent(x);
    Congruence(Counter.Int32(x), x, k);
  }

  lemma SameUnsigned(x: int, y: int)
    requires Congruent(x, y)
    ensures Unsigned(x, U32) == Unsigned(y, U32)
  {
    var k := Quotient(x, y);
    Counter.Int32Shift(y, k);
  }

  /** All bytes charged to the frames from `k` inwards. */
  function Total(frames: seq<Counter.Frame>, k: nat): int
    decreases |frames| - k
  {
    if k >= |frames| then 0 else frames[k].current + Total(frames, k + 1)
  }

  lemma {:induction false} TotalPush(frames: seq<Counter.Frame>, top: Counter.Frame, k: nat)
    requires k <= |frames|
    ensures Total(frames + [top], k) == Total(frames, k) + top.current
    decreases |frames| - k
  {
    if k < |frames| {
      TotalPush(frames, top, k + 1);
      assert (frames + [top])[k] == frames[k];
    } else {
      assert Total(frames + [top], k + 1) == 0;
    }
  }

  /** The two counters have the same structs open and the same lengths for the closed ones. What
      the running count has gained since a struct began is what all frames from its own inwards
      have gathered, and `owed` bytes not charged to them yet. */
  ghost predicate Agree(c: Counter.State, s: State, owed: int) {
    && Matches(c, s)
    && (forall k :: 0 <= k < |s.stack| ==>
          Congruent(s.count - s.lengths[s.stack[k]], Total(c.frames, k) + owed))
  }

  ghost predicate Matches(c: Counter.State, s: State) {
    && |c.frames| == |s.stack| && |c.lengths| == |s.lengths| && s.count < U32
    && (forall k :: 0 <= k < |s.stack| ==> s.stack[k] == c.frames[k].slot && s.stack[k] < |s.lengths|)
    && (forall j, k :: 0 <= j < k < |s.stack| ==> s.stack[j] < s.stack[k])
    && (forall i :: 0 <= i < |s.lengths| && i !in s.stack ==> s.lengths[i] == c.lengths[i])
  }

  /** One counter adds `x` bytes, the other `n`. */
  lemma AgreeAdd(c: Counter.State, s: State, owed: int, x: int, n: nat, owed': int)
    requires Agree(c, s, owed) && c.frames != []
    requires Congruent(owed', owed + n - x)
    ensures Counter.AddBytes(c, x).Some? && Agree(Counter.AddBytes(c, x).value, AddBytes(s, n), owed')
  {
    hide Congruent, Unsigned, Counter.Int32, Total;
    var last := |c.frames| - 1;
    var top := c.frames[last];
    var c', s' := Counter.AddBytes(c, x).value, AddBytes(s, n);
    assert c.frames == c.frames[..last] + [top];
    CongruentUnsigned(top.current + x);
    CongruentUnsigned(s.count + n);
    forall k | 0 <= k < |s.stack|
      ensures Congruent(s'.count - s'.lengths[s'.stack[k]], Total(c'.frames, k) + owed')
    {
      AddedAt(c.frames[..last], top, c'.frames[last], k, s.count, s'.count, s.lengths[s.stack[k]], owed, owed', x, n);
    }
  }

  /** The balance of one open struct: its frame is at or outside the innermost one. */
  lemma AddedAt(outer: seq<Counter.Frame>, top: Counter.Frame, top': Counter.Frame, k: nat,
                count: int, count': int, base: int, owed: int, owed': int, x: int, n: nat)
    requires k <= |outer| && Congruent(count - base, Total(outer + [top], k) + owed)
    requires Congruent(count', count + n) && Congruent(top'.current, top.current + x)
    requires Congruent(owed', owed + n - x)
    ensures Congruent(count' - base, Total(outer + [top'], k) + owed')
  {
    hide Congruent, Total;
    TotalPush(outer, top, k);
    TotalPush(outer, top', k);
    var h := Quotient(count - base, Total(outer + [top], k) + owed);
    var i := Quotient(count', count + n);
    var j := Quotient(top'.current, top.current + x);
    var l := Quotient(owed', owed + n - x);
    Congruence(count' - base, Total(outer + [top'], k) + owed', h + i - j - l);
  }

  lemma AgreeBegin(c: Counter.State, s: State)
    requires Agree(c, s, 0)
    ensures Agree(Counter.Step(c, StructBegin).value, Step(s, StructBegin).value, 0)
  {
    hide Congruent, Total;
    var c', s' := Counter.Step(c, StructBegin).value, Step(s, StructBegin).value;
    forall k | 0 <= k < |s'.stack|
      ensures Congruent(s'.count - s'.lengths[s'.stack[k]], Total(c'.frames, k) + 0)
    {
      TotalPush(c.frames, Counter.Frame(|c.lengths|, 0), k);
      if k == |s.stack| {
        assert Total(c.frames, k) == 0 by { NoTotal(c.frames); }
        Congruence(0, 0, 0);
      }
    }
    forall i | 0 <= i < |s'.lengths| && i !in s'.stack ensures s'.lengths[i] == c'.lengths[i] {
      assert s'.stack[|s.stack|] == |s.lengths|;
      assert forall k :: 0 <= k < |s.stack| ==> s.stack[k] == s'.stack[k];
    }
  }

  lemma NoTotal(frames: seq<Counter.Frame>)
    ensures Total(frames, |frames|) == 0
  {
  }

  /** Both counters find the same length for the innermost struct. */
  lemma SameLength(count: nat, base: nat, current: int)
    requires Congruent(count - base, current)
    ensures Unsigned(Unsigned(count + 1, U32) - base, U32) == Unsigned(Unsigned(current, U32) + 1, U32)
    ensures Congruent(Unsigned(Unsigned(current, U32) + 1, U32), current + 1)
  {
    hide Congruent, Unsigned;
    CongruentUnsigned(count + 1);
    CongruentUnsigned(current);
    var length := Unsigned(current, U32) + 1;
    CongruentUnsigned(length);
    var i := Quotient(count - base, current);
    var j := Quotient(Unsigned(count + 1, U32), count + 1);
    var k := Quotient(Unsigned(current, U32), current);
    Congruence(Unsigned(count + 1, U32) - base, length, i + j - k);
    SameUnsigned(Unsigned(count + 1, U32) - base, length);
    var l := Quotient(Unsigned(length, U32), length);
    Congruence(Unsigned(length, U32), current + 1, k + l);
  }

  /** Both counters with the innermost struct closed at `length` bytes, nothing charged for it yet. */
  ghost predicate Popped(c: Counter.State, s: State, length: nat, c': Counter.State, s': State) {
    && c.frames != [] && |s.stack| == |c.frames|
    && s.stack[|s.stack| - 1] == c.frames[|c.frames| - 1].slot < |s.lengths| == |c.lengths|
    && length == Unsigned(Unsigned(c.frames[|c.frames| - 1].current, U32) + 1, U32)
    && length == Unsigned(Unsigned(s.count + 1, U32) - s.lengths[s.stack[|s.stack| - 1]], U32)
    && c' == Counter.State(c.lengths[c.frames[|c.frames| - 1].slot := length], c.frames[..|c.frames| - 1])
    && s' == State(Unsigned(s.count + 1, U32), s.stack[..|s.stack| - 1], s.lengths[s.stack[|s.stack| - 1] := length])
  }

  lemma Pop(c: Counter.State, s: State) returns (length: nat, c': Counter.State, s': State)
    requires Agree(c, s, 0) && c.frames != []
    ensures Popped(c, s, length, c', s')
  {
    hide Congruent, Unsigned;
    var last, top := |c.frames| - 1, c.frames[|c.frames| - 1];
    assert Total(c.frames, last) == top.current;
    SameLength(s.count, s.lengths[top.slot], top.current);
    length := Unsigned(Unsigned(top.current, U32) + 1, U32);
    c' := Counter.State(c.lengths[top.slot := length], c.frames[..last]);
    s' := State(Unsigned(s.count + 1, U32), s.stack[..last], s.lengths[top.slot := length]);
  }

  lemma OwesTop(c: Counter.State, s: State, length: nat, c': Counter.State, s': State, k: nat)
    requires Agree(c, s, 0) && Popped(c, s, length, c', s') && k < |s'.stack|
    ensures k <= |c'.frames| && k < |s.stack| && s.stack[k] < |s.lengths| && s'.count == Unsigned(s.count + 1, U32)
    ensures var top := c.frames[|c.frames| - 1];
            c.frames == c'.frames + [top] && Congruent(length, top.current + 1)
    ensures Congruent(s.count - s.lengths[s.stack[k]], Total(c.frames, k))
  {
    hide Congruent, Unsigned;
    var last, top := |c.frames| - 1, c.frames[|c.frames| - 1];
    assert Total(c.frames, last) == top.current;
    SameLength(s.count, s.lengths[top.slot], top.current);
  }

  lemma Owes(c: Counter.State, s: State, length: nat, c': Counter.State, s': State, k: nat)
    requires Agree(c, s, 0) && Popped(c, s, length, c', s') && k < |s'.stack|
    ensures Congruent(s'.count - s.lengths[s.stack[k]], Total(c'.frames, k) + length)
  {
    hide Agree, Popped, Congruent, Unsigned, Total;
    OwesTop(c, s, length, c', s', k);
    var top, base := c.frames[|c.frames| - 1], s.lengths[s.stack[k]];
    CongruentUnsigned(s.count + 1);
    TotalPush(c'.frames, top, k);
    var h := Quotient(s.count - base, Total(c.frames, k));
    var i := Quotient(s'.count, s.count + 1);
    var j := Quotient(length, top.current + 1);
    Congruence(s'.count - base, Total(c'.frames, k) + length, h + i - j);
  }

  /** The length is then owed to the enclosing structs. */
  lemma AgreePop(c: Counter.State, s: State) returns (length: nat, c': Counter.State, s': State)
    requires Agree(c, s, 0) && c.frames != []
    ensures Popped(c, s, length, c', s') && Agree(c', s', length)
  {
    hide Congruent, Unsigned, Total, Popped, Matches;
    length, c', s' := Pop(c, s);
    MatchesPop(c, s, length, c', s');
    forall k | 0 <= k < |s'.stack| ensures Congruent(s'.count - s'.lengths[s'.stack[k]], Total(c'.frames, k) + length) {
      Owes(c, s, length, c', s', k);
    }
  }

  lemma MatchesPop(c: Counter.State, s: State, length: nat, c': Counter.State, s': State)
    requires Matches(c, s) && Popped(c, s, length, c', s')
    ensures Matches(c', s')
    ensures |s'.stack| <= |s.stack| && |s'.lengths| == |s.lengths|
    ensures forall k :: 0 <= k < |s'.stack| ==>
              s'.stack[k] == s.stack[k] < |s.lengths| && s'.lengths[s'.stack[k]] == s.lengths[s.stack[k]]
  {
    hide Unsigned;
    forall m | 0 <= m < |s.lengths| && m !in s'.stack ensures s'.lengths[m] == c'.lengths[m] {
      assert s.stack == s'.stack + [s.stack[|s.stack| - 1]];
    }
  }

  /** The enclosing struct is charged with the prefix and then with the struct itself; the running
      count only needs the prefix. */
  lemma AgreeSettle(c: Counter.State, s: State, length: nat, vl: nat)
    requires Agree(c, s, length) && c.frames != []
    ensures var charged := Counter.AddBytes(c, vl);
            && charged.Some? && Counter.AddBytes(charged.value, Counter.Int32(length)).Some?
            && Agree(Counter.AddBytes(charged.value, Counter.Int32(length)).value, AddBytes(s, vl), 0)
  {
    hide Agree, Congruent, Unsigned, Counter.Int32;
    Congruence(length, length + vl - vl, 0);
    AgreeAdd(c, s, length, vl, vl, length);
    CongruentUnsigned(length);
    var k := Quotient(Counter.Int32(length), length);
    Congruence(0, length + 0 - Counter.Int32(length), k);
    AgreeAdd(Counter.AddBytes(c, vl).value, AddBytes(s, vl), length, Counter.Int32(length), 0, 0);
    UnsignedTwice(s.count + vl);
  }

  lemma AgreeEnd(c: Counter.State, s: State)
    requires Agree(c, s, 0) && Counter.EndStruct(c).Some?
    ensures Step(s, StructEnd).Some? && Agree(Counter.EndStruct(c).value, Step(s, StructEnd).value, 0)
  {
    assert c.frames != [];
    hide Agree, Popped, Unsigned, Counter.Int32, VarUInt32Length, VarBytes, AddBytes, Counter.AddBytes,
      EndStruct, Counter.EndStruct;
    var length, c', s' := AgreePop(c, s);
    var vl := VarBytes(5, length);
    Charges(c, s, length, c', s');
    if c'.frames == [] {
      NoneOpen(c', s', length, AddBytes(s', vl));
    } else {
      AgreeSettle(c', s', length, vl);
    }
  }

  lemma Charges(c: Counter.State, s: State, length: nat, c': Counter.State, s': State)
    requires Popped(c, s, length, c', s')
    ensures var ended := AddBytes(s', VarBytes(5, length));
            EndStruct(s) == Some(ended) && ended.count < U32 && ended.stack == s'.stack && ended.lengths == s'.lengths
    ensures Counter.EndStruct(c)
         == if c'.frames == [] then Some(c')
            else
              match Counter.AddBytes(c', VarBytes(5, length))
              case None => None
              case Some(charged) => Counter.AddBytes(charged, Counter.Int32(length))
  {
    VarBytesLength(length, 5);
    hide VarUInt32Length, Counter.Int32, Counter.AddBytes, VarBytes;
  }

  lemma UnsignedTwice(x: int)
    ensures Unsigned(Unsigned(x, U32) + 0, U32) == Unsigned(x, U32)
  {
  }

  lemma NoneOpen(c: Counter.State, s: State, owed: int, s': State)
    requires Agree(c, s, owed) && c.frames == []
    requires s'.count < U32 && s'.stack == s.stack && s'.lengths == s.lengths
    ensures Agree(c, s', 0)
  {
  }

  /** The counting stream charges a varint with its true length. */
  lemma VarBytesLength(value: nat, maxBytes: nat)
    requires maxBytes == 3 || maxBytes == 5 || maxBytes == 10
    requires value < if maxBytes == 3 then U16 else if maxBytes == 5 then U32 else U64
    ensures VarBytes(maxBytes, value) == |Encode(value)|
    ensures maxBytes == 3 ==> VarBytes(maxBytes, value) == VarUInt16Length(value)
    ensures maxBytes == 5 ==> VarBytes(maxBytes, value) == VarUInt32Length(value)
    ensures maxBytes == 10 ==> VarBytes(maxBytes, value) == VarUInt64Length(value)
  {
    Pow128Values();
    CountedLengthIsLength(1, maxBytes, value);
    LengthIsThresholds(value);
  }

  /** A string's length fits in 32 bits. */
  predicate Sized(calls: seq<Call>) {
    forall i :: 0 <= i < |calls| && calls[i].WriteRaw? ==> |calls[i].raw| < U32
  }

  lemma WeightsAgree(call: Call)
    requires Sized([call])
    ensures Weight(call) == Counter.Weight(call)
  {
    hide VarBytes, CountedLength, VarUInt16Length, VarUInt32Length, VarUInt64Length, EncodeZigzag, Unsigned;
    assert [call][0] == call;
    match call
    case ContainerBegin(count, _) => VarBytesLength(count, 5);
    case MapBegin(count, _, _) => VarBytesLength(count, 5);
    case WriteNum(t, n) =>
      var m := Modulus(Size(t));
      var u := if IsSigned(t) then EncodeZigzag(n, m) else Unsigned(n, m);
      if Size(t) > 1 {
        VarBytesLength(u, if Size(t) == 2 then 3 else if Size(t) == 4 then 5 else 10);
      }
    case WriteRaw(t, raw) =>
      VarBytesLength(|raw|, 5);
      VarBytesLength(|raw| / 2, 5);
    case _ =>
  }

  /** Whatever calls the per-frame counter accepts, well-nested or not, pass zero accepts, and the
      two stay in agreement. */
  lemma {:induction false} Simulates(c: Counter.State, s: State, calls: seq<Call>)
    requires Agree(c, s, 0) && Sized(calls)
    requires Run(Counter.Step, c, calls).Some?
    ensures Run(Step, s, calls).Some?
    ensures Agree(Run(Counter.Step, c, calls).value, Run(Step, s, calls).value, 0)
    decreases |calls|
  {
    hide Agree, EndStruct, Counter.EndStruct, Weight, Counter.Weight, Counter.AddBytes;
    if calls != [] {
      var call := calls[0];
      assert Sized([call]);
      WeightsAgree(call);
      match call {
        case StructBegin => AgreeBegin(c, s);
        case StructEnd => AgreeEnd(c, s);
        case BondedBegin(_) =>
        case _ => AgreeWeight(c, s, Weight(call));
      }
      Simulates(Counter.Step(c, call).value, Step(s, call).value, calls[1..]);
    }
  }

  lemma AgreeWeight(c: Counter.State, s: State, n: nat)
    requires Agree(c, s, 0) && Counter.AddBytes(c, n).Some?
    ensures Agree(Counter.AddBytes(c, n).value, AddBytes(s, n), 0)
  {
    Congruence(0, 0 + n - n, 0);
    AgreeAdd(c, s, 0, n, n, 0);
  }

  /** Once every struct is closed the two length lists are the same. */
  lemma SameLengths(calls: seq<Call>)
    requires Sized(calls)
    requires var c := Run(Counter.Step, Counter.State([], []), calls); c.Some? && c.value.frames == []
    ensures var s := Run(Step, State(0, [], []), calls);
            && s.Some? && s.value.stack == []
            && s.value.lengths == Run(Counter.Step, Counter.State([], []), calls).value.lengths
  {
    Simulates(Counter.State([], []), State(0, [], []), calls);
    var c := Run(Counter.Step, Counter.State([], []), calls).value;
    var s := Run(Step, State(0, [], []), calls).value;
    assert |c.lengths| == |s.lengths| && s.stack == [];
    assert forall i :: 0 <= i < |s.lengths| ==> s.lengths[i] == c.lengths[i];
  }

  // ------------------------------------------------------- the calls of a value

  lemma SizedConcat(a: seq<Call>, b: seq<Call>)
    requires Sized(a) && Sized(b)
    ensures Sized(a + b)
  {
  }

  lemma {:induction false} SizedValue(style: Style, v: Value)
    requires Valid(v)
    ensures Sized(CallsOf(style, v))
    decreases v, 1
  {
    match v
    case Num(_, _) =>
    case Raw(_, _) =>
    case List(_, elem, items) =>
      SizedItems(style, elem, items);
    case Map(key, elem, entries) =>
      SizedEntries(style, key, elem, entries);
    case Struct(body) =>
      SizedBody(style, body);
  }

  lemma {:induction false} SizedItems(style: Style, elem: byte, items: Items)
    requires ValidItems(elem, items)
    ensures Sized(CallsOfItems(style, elem, items))
    decreases items, 0
  {
    match items
    case NoItems =>
    case Item(head, tail) =>
      SizedValue(First(style), head);
      SizedItems(Rest(style), elem, tail);
      SizedConcat(CallsOf(First(style), head), CallsOfItems(Rest(style), elem, tail));
  }

  lemma {:induction false} SizedEntries(style: Style, key: byte, elem: byte, entries: Entries)
    requires ValidEntries(key, elem, entries)
    ensures Sized(CallsOfEntries(style, key, elem, entries))
    decreases entries, 0
  {
    match entries
    case NoEntries =>
    case Entry(k, v, rest) =>
      SizedValue(First(style), k);
      SizedValue(First(Rest(style)), v);
      SizedEntries(Rest(Rest(style)), key, elem, rest);
  }

  lemma {:induction false} SizedBody(style: Style, body: Body)
    requires ValidBody(body)
    ensures Sized(CallsOfStruct(style, body)) && Sized(CallsOfBody(style, body))
    decreases body, 0
  {
    match body
    case Stop =>
    case StopBase(next) => SizedBody(style, next);
    case Field(_, v, next) =>
      SizedValue(First(style), v);
      SizedBody(Rest(style), next);
  }

  lemma PassZero(style: Style, body: Body)
    requires ValidBody(body) && |EncodeBody(CompactV2, body)| < U32
    ensures var s := Run(Step, State(0, [], []), CallsOfStruct(style, body));
            s.Some? && s.value.stack == [] && s.value.lengths == Counter.LengthsOf(Struct(body))
  {
    CounterLengths.FirstPass(style, body);
    SizedBody(style, body);
    SameLengths(CallsOfStruct(style, body));
  }
}
