/** Schema-less streaming transcoding: read a payload field by field and make the corresponding
    calls on a writer of any of the tagged protocols. */
module Transcoder {
  import opened Bytes
  import opened Varint
  import opened Input
  import opened Wire
  import opened Grammar
  import opened RoundTrip
  import opened Calls
  import opened Reader
  import Lockstep
  import Writer

  /** A tagged payload holds no bonded values, and hands over byte containers as a whole. */
  const Streaming := Same(false, true)

  /** The calls so far and the items still in the payload make up the whole container. */
  ghost predicate ItemsLeft(r: TaggedReader, elem: byte, total: nat, start: nat, count: nat, pos: nat,
                            calls: seq<Call>) {
    match ParseItems(r.protocol, elem, total, r.data, start)
    case None => true
    case Some((all, end)) =>
      match ParseItems(r.protocol, elem, count, r.data, pos)
      case None => false
      case Some((rest, end')) =>
        && end == end' && ValidItems(elem, all) && ValidItems(elem, rest)
        && CallsOfItems(Streaming, elem, all) == calls + CallsOfItems(Streaming, elem, rest)
  }

  ghost predicate EntriesLeft(r: TaggedReader, key: byte, elem: byte, total: nat, start: nat,
                              count: nat, pos: nat, calls: seq<Call>) {
    match ParseEntries(r.protocol, key, elem, total, r.data, start)
    case None => true
    case Some((all, end)) =>
      match ParseEntries(r.protocol, key, elem, count, r.data, pos)
      case None => false
      case Some((rest, end')) =>
        && end == end' && ValidEntries(key, elem, all) && ValidEntries(key, elem, rest)
        && CallsOfEntries(Streaming, key, elem, all) == calls + CallsOfEntries(Streaming, key, elem, rest)
  }

  /** The same for a struct's body, with the header `t`, `id` of its next field already read. */
  ghost predicate BodyLeft(r: TaggedReader, start: nat, t: byte, id: nat, pos: nat, calls: seq<Call>) {
    match ParseBody(r.protocol, r.data, start)
    case None => true
    case Some((all, end)) =>
      match ParseAfterHeader(r.protocol, t, id, r.data, pos)
      case None => false
      case Some((rest, end')) =>
        && end == end' && ValidBody(all) && ValidBody(rest)
        && CallsOfBody(Streaming, all) == calls + CallsOfBody(Streaming, rest)
  }

  /** `calls` are those of the value of type `t` at `pos`, and the value ends at `end`. */
  ghost predicate Transcribed(r: TaggedReader, t: byte, pos: nat, ok: bool, end: nat, calls: seq<Call>) {
    match ParseValue(r.protocol, t, r.data, pos)
    case None => true
    case Some((v, next)) => ok && end == next && Valid(v) && calls == CallsOf(Streaming, v)
  }

  lemma ItemRead(r: TaggedReader, elem: byte, total: nat, start: nat, count: nat, pos: nat,
                 calls: seq<Call>, ok: bool, next: nat, more: seq<Call>)
    requires ItemsLeft(r, elem, total, start, count, pos, calls) && count > 0
    requires Transcribed(r, elem, pos, ok, next, more)
    ensures ok ==> ItemsLeft(r, elem, total, start, count - 1, next, calls + more)
    ensures !ok ==> ParseItems(r.protocol, elem, total, r.data, start) == None
  {
    hide ParseValue, CallsOf, Valid;
    var all := ParseItems(r.protocol, elem, total, r.data, start);
    if all.Some? {
      var rest := ParseItems(r.protocol, elem, count, r.data, pos).value.0;
      assert calls + (more + CallsOfItems(Streaming, elem, rest.tail))
          == calls + more + CallsOfItems(Streaming, elem, rest.tail);
    }
  }

  lemma EntryRead(r: TaggedReader, key: byte, elem: byte, total: nat, start: nat, count: nat, pos: nat,
                  calls: seq<Call>, okKey: bool, mid: nat, keyCalls: seq<Call>,
                  ok: bool, next: nat, more: seq<Call>)
    requires EntriesLeft(r, key, elem, total, start, count, pos, calls) && count > 0
    requires Transcribed(r, key, pos, okKey, mid, keyCalls)
    requires okKey ==> Transcribed(r, elem, mid, ok, next, more)
    ensures okKey && ok ==> EntriesLeft(r, key, elem, total, start, count - 1, next, calls + keyCalls + more)
    ensures !okKey || !ok ==> ParseEntries(r.protocol, key, elem, total, r.data, start) == None
  {
    hide ParseValue, CallsOf, Valid;
    var all := ParseEntries(r.protocol, key, elem, total, r.data, start);
    if all.Some? {
      var tail := CallsOfEntries(Streaming, key, elem,
                                 ParseEntries(r.protocol, key, elem, count, r.data, pos).value.0.rest);
      assert calls + (keyCalls + (more + tail)) == calls + keyCalls + more + tail;
    }
  }

  lemma BaseEndRead(r: TaggedReader, start: nat, id: nat, pos: nat, calls: seq<Call>)
    requires BodyLeft(r, start, BT_STOP_BASE, id, pos, calls)
    ensures match ParseFieldHeader(r.protocol, r.data, pos)
            case None => ParseBody(r.protocol, r.data, start) == None
            case Some((t, id, next)) => BodyLeft(r, start, t, id, next, calls + [BaseEnd])
  {
    hide ParseValue, CallsOf, Valid, ParseFieldHeader;
    if ParseBody(r.protocol, r.data, start).Some? {
      var rest := ParseAfterHeader(r.protocol, BT_STOP_BASE, id, r.data, pos).value.0;
      assert ParseBody(r.protocol, r.data, pos).Some?;
      assert calls + ([BaseEnd] + CallsOfBody(Streaming, rest.next))
          == calls + [BaseEnd] + CallsOfBody(Streaming, rest.next);
    }
  }

  lemma FieldRead(r: TaggedReader, start: nat, t: byte, id: nat, pos: nat, calls: seq<Call>,
                  ok: bool, mid: nat, more: seq<Call>)
    requires BodyLeft(r, start, t, id, pos, calls) && t != BT_STOP && t != BT_STOP_BASE
    requires DataType(t) && id < U16
    requires Transcribed(r, t, pos, ok, mid, more)
    ensures !ok ==> ParseBody(r.protocol, r.data, start) == None
    ensures ok ==>
              match ParseFieldHeader(r.protocol, r.data, mid)
              case None => ParseBody(r.protocol, r.data, start) == None
              case Some((t', id', next)) => BodyLeft(r, start, t', id', next, calls + [FieldBegin(t, id)] + more)
  {
    hide ParseValue, CallsOf, Valid, ParseFieldHeader;
    if ParseBody(r.protocol, r.data, start).Some? {
      var rest := ParseAfterHeader(r.protocol, t, id, r.data, pos).value.0;
      assert ParseBody(r.protocol, r.data, mid).Some?;
      var tail := CallsOfBody(Streaming, rest.next);
      assert calls + ([FieldBegin(t, id)] + (more + tail)) == calls + [FieldBegin(t, id)] + more + tail;
    }
  }

  lemma ByteRead(p: Protocol, elem: byte, data: seq<byte>, pos: nat)
    requires ByteType(elem) && ParseValue(p, elem, data, pos).Some?
    ensures pos < |data| && ParseValue(p, elem, data, pos).value.1 == pos + 1
    ensures ParseValue(p, elem, data, pos).value.0.Num?
    ensures Unsigned(ParseValue(p, elem, data, pos).value.0.n, 256) == data[pos]
  {
    var head := ParseValue(p, elem, data, pos).value.0;
    assert head.n == if elem == BT_INT8 then Signed(data[pos], 256) else data[pos];
  }

  /** A run of byte-sized items in the payload is its own array segment. */
  lemma {:induction false} ByteItemsRead(p: Protocol, elem: byte, count: nat, data: seq<byte>, pos: nat)
    requires ByteType(elem) && pos <= |data| && ParseItems(p, elem, count, data, pos).Some?
    ensures var (items, end) := ParseItems(p, elem, count, data, pos).value;
      ValidItems(elem, items) && ReadBytes(data, pos, count) == Some((ItemBytes(elem, items), end))
    decreases count
  {
    hide ParseValue, Valid;
    ParsedItemsAreValid(p, elem, count, data, pos);
    if count > 0 {
      ByteRead(p, elem, data, pos);
      ByteItemsRead(p, elem, count - 1, data, pos + 1);
      assert data[pos..pos + count] == [data[pos]] + data[pos + 1..pos + count];
    }
  }

  method TranscodeValue(r: TaggedReader, t: byte) returns (ok: bool, calls: seq<Call>)
    modifies r
    ensures Transcribed(r, t, old(r.position), ok, r.position, calls)
    ensures ok ==> old(r.position) < r.position <= |r.data|
    decreases if r.position < |r.data| then |r.data| - r.position else 0, 3
  {
    hide ParseNum, ParseRaw, ParseListHeader, ParseMapHeader, ParseLength, ParseItems, ParseEntries, ParseBody, Valid;
    calls := [];
    if ParseValue(r.protocol, t, r.data, r.position).Some? {
      ParsedIsValid(r.protocol, t, r.data, r.position);
    }
    if Numeric(t) {
      var n := r.ReadNum(t);
      ok := n.Some?;
      if ok {
        calls := [WriteNum(t, n.value)];
      }
      assert Transcribed(r, t, old(r.position), ok, r.position, calls);
    } else if Opaque(t) {
      var raw := r.ReadRaw(t);
      ok := raw.Some?;
      if ok {
        calls := [WriteRaw(t, raw.value)];
      }
      assert Transcribed(r, t, old(r.position), ok, r.position, calls);
    } else if t == BT_LIST || t == BT_SET {
      ok, calls := TranscodeContainer(r, t);
      assert Transcribed(r, t, old(r.position), ok, r.position, calls);
    } else if t == BT_MAP {
      ok, calls := TranscodeMap(r);
      assert Transcribed(r, t, old(r.position), ok, r.position, calls);
    } else if t == BT_STRUCT {
      ok, calls := TranscodeStruct(r);
      assert Transcribed(r, t, old(r.position), ok, r.position, calls);
    } else {
      ok := false;
      assert Transcribed(r, t, old(r.position), ok, r.position, calls);
    }
  }

  /** The container at `pos`, with its header and items read. */
  lemma ContainerRead(p: Protocol, t: byte, data: seq<byte>, pos: nat)
    requires t == BT_LIST || t == BT_SET
    requires ParseValue(p, t, data, pos).Some?
    ensures ParseListHeader(p, data, pos).Some?
    ensures var (elem, count, start) := ParseListHeader(p, data, pos).value;
            var (v, end) := ParseValue(p, t, data, pos).value;
            && count <= INT_MAX && DataType(elem) && ParseItems(p, elem, count, data, start).Some?
            && ParseItems(p, elem, count, data, start).value.1 == end
            && v == List(t, elem, ParseItems(p, elem, count, data, start).value.0)
            && Count(v.items) == count && Valid(v)
            && CallsOf(Streaming, v)
            == [ContainerBegin(count, elem)]
             + if ByteType(elem) then [WriteBytes(ItemBytes(elem, v.items))] else CallsOfItems(Streaming, elem, v.items)
  {
    hide ParseListHeader;
    ParsedIsValid(p, t, data, pos);
    var (elem, count, start) := ParseListHeader(p, data, pos).value;
    ParsedItemsAreValid(p, elem, count, data, start);
  }

  method TranscodeContainer(r: TaggedReader, ghost t: byte) returns (ok: bool, calls: seq<Call>)
    requires t == BT_LIST || t == BT_SET
    modifies r
    ensures Transcribed(r, t, old(r.position), ok, r.position, calls)
    ensures ok ==> old(r.position) < r.position <= |r.data|
    decreases if r.position < |r.data| then |r.data| - r.position else 0, 2
  {
    hide ParseListHeader, Valid, ParseValue, CallsOf, CallsOfItems, ParseItems;
    ghost var whole := ParseValue(r.protocol, t, r.data, r.position);
    if whole.Some? {
      ContainerRead(r.protocol, t, r.data, r.position);
    }
    calls := [];
    var header := r.ReadListBegin();
    if header == None {
      return false, calls;
    }
    var (elem, count) := header.value;
    if count > INT_MAX || !DataType(elem) {
      return false, calls;
    }
    if ByteType(elem) {
      if whole.Some? {
        ByteItemsRead(r.protocol, elem, count, r.data, r.position);
      }
      var bytes := r.Blob(count);
      ok := bytes.Some?;
      if ok {
        calls := [ContainerBegin(count, elem)] + [WriteBytes(bytes.value)];
      }
      return;
    }
    ok, calls := TranscodeItems(r, elem, count);
    calls := [ContainerBegin(count, elem)] + calls;
  }

  method TranscodeItems(r: TaggedReader, elem: byte, count: nat) returns (ok: bool, calls: seq<Call>)
    requires r.position <= |r.data|
    modifies r
    ensures match ParseItems(r.protocol, elem, count, r.data, old(r.position))
            case None => true
            case Some((items, next)) =>
              ok && r.position == next && ValidItems(elem, items) && calls == CallsOfItems(Streaming, elem, items)
    ensures ok ==> old(r.position) <= r.position <= |r.data|
    decreases if r.position < |r.data| then |r.data| - r.position else 0, 4
  {
    hide ParseValue, CallsOf, Valid, Transcribed;
    var start := r.position;
    var left := count;
    calls := [];
    ok := true;
    if ParseItems(r.protocol, elem, count, r.data, start).Some? {
      ParsedItemsAreValid(r.protocol, elem, count, r.data, start);
      assert calls + CallsOfItems(Streaming, elem, ParseItems(r.protocol, elem, count, r.data, start).value.0)
          == CallsOfItems(Streaming, elem, ParseItems(r.protocol, elem, count, r.data, start).value.0);
    }
    while left > 0
      invariant start <= r.position <= |r.data|
      invariant ItemsLeft(r, elem, count, start, left, r.position, calls)
    {
      var more;
      ghost var pos, before := r.position, calls;
      ok, more := TranscodeValue(r, elem);
      ItemRead(r, elem, count, start, left, pos, before, ok, r.position, more);
      if !ok {
        return;
      }
      calls := calls + more;
      left := left - 1;
    }
  }

  method TranscodeMap(r: TaggedReader) returns (ok: bool, calls: seq<Call>)
    modifies r
    ensures Transcribed(r, BT_MAP, old(r.position), ok, r.position, calls)
    ensures ok ==> old(r.position) < r.position <= |r.data|
    decreases if r.position < |r.data| then |r.data| - r.position else 0, 2
  {
    hide ParseMapHeader, Valid;
    ghost var whole := ParseValue(r.protocol, BT_MAP, r.data, r.position);
    if whole.Some? {
      ParsedIsValid(r.protocol, BT_MAP, r.data, r.position);
    }
    calls := [];
    var header := r.ReadMapBegin();
    if header == None {
      return false, calls;
    }
    var (key, elem, count) := header.value;
    if count > INT_MAX || !DataType(key) || !DataType(elem) {
      return false, calls;
    }
    ok, calls := TranscodeEntries(r, key, elem, count);
    calls := [MapBegin(count, key, elem)] + calls;
  }

  method TranscodeEntries(r: TaggedReader, key: byte, elem: byte, count: nat) returns (ok: bool, calls: seq<Call>)
    requires r.position <= |r.data|
    modifies r
    ensures match ParseEntries(r.protocol, key, elem, count, r.data, old(r.position))
            case None => true
            case Some((entries, next)) =>
              && ok && r.position == next && ValidEntries(key, elem, entries)
              && calls == CallsOfEntries(Streaming, key, elem, entries)
    ensures ok ==> old(r.position) <= r.position <= |r.data|
    decreases if r.position < |r.data| then |r.data| - r.position else 0, 4
  {
    hide ParseValue, CallsOf, Valid, Transcribed;
    var start := r.position;
    var left := count;
    calls := [];
    ok := true;
    if ParseEntries(r.protocol, key, elem, count, r.data, start).Some? {
      ParsedEntriesAreValid(r.protocol, key, elem, count, r.data, start);
      var all := ParseEntries(r.protocol, key, elem, count, r.data, start).value.0;
      assert calls + CallsOfEntries(Streaming, key, elem, all) == CallsOfEntries(Streaming, key, elem, all);
    }
    while left > 0
      invariant start <= r.position <= |r.data|
      invariant EntriesLeft(r, key, elem, count, start, left, r.position, calls)
    {
      var keyCalls, more := [], [];
      ghost var pos, before := r.position, calls;
      ok, keyCalls := TranscodeValue(r, key);
      ghost var okKey, mid := ok, r.position;
      if ok {
        ok, more := TranscodeValue(r, elem);
      }
      EntryRead(r, key, elem, count, start, left, pos, before, okKey, mid, keyCalls, ok, r.position, more);
      if !ok {
        return;
      }
      calls := calls + keyCalls + more;
      left := left - 1;
    }
  }

  method TranscodeStruct(r: TaggedReader) returns (ok: bool, calls: seq<Call>)
    modifies r
    ensures Transcribed(r, BT_STRUCT, old(r.position), ok, r.position, calls)
    ensures ok ==> old(r.position) < r.position <= |r.data|
    decreases if r.position < |r.data| then |r.data| - r.position else 0, 2
  {
    hide ParseLength, Valid;
    ghost var whole := ParseValue(r.protocol, BT_STRUCT, r.data, r.position);
    if whole.Some? {
      ParsedIsValid(r.protocol, BT_STRUCT, r.data, r.position);
    }
    calls := [];
    ok := r.ReadStructBegin();
    if !ok {
      return;
    }
    ok, calls := TranscodeBody(r);
    calls := [StructBegin] + calls;
    assert [] + calls == calls;
    if whole.Some? {
      assert calls == CallsOfStruct(Streaming, whole.value.0.body);
      assert CallsOf(Streaming, whole.value.0) == [] + CallsOfStruct(Streaming, whole.value.0.body);
    }
  }

  method TranscodeBody(r: TaggedReader) returns (ok: bool, calls: seq<Call>)
    modifies r
    ensures match ParseBody(r.protocol, r.data, old(r.position))
            case None => true
            case Some((body, next)) =>
              ok && r.position == next && ValidBody(body) && calls == CallsOfBody(Streaming, body)
    ensures ok ==> old(r.position) < r.position <= |r.data|
    decreases if r.position < |r.data| then |r.data| - r.position else 0, 1
  {
    hide ParseValue, CallsOf, Valid, Transcribed, ParseFieldHeader;
    var start := r.position;
    calls := [];
    ok := true;
    var header: Option<(byte, nat)> := r.ReadFieldBegin();
    if header == None {
      return false, calls;
    }
    if ParseBody(r.protocol, r.data, start).Some? {
      ParsedBodyIsValid(r.protocol, r.data, start);
      var all := ParseBody(r.protocol, r.data, start).value.0;
      assert calls + CallsOfBody(Streaming, all) == CallsOfBody(Streaming, all);
    }
    while header.value.0 != BT_STOP
      invariant header.Some? && header.value.1 < U16
      invariant start < r.position <= |r.data|
      invariant BodyLeft(r, start, header.value.0, header.value.1, r.position, calls)
      decreases |r.data| - r.position
    {
      ghost var pos, before := r.position, calls;
      var (t: byte, id: nat) := header.value;
      if t == BT_STOP_BASE {
        calls := calls + [BaseEnd];
        BaseEndRead(r, start, id, pos, before);
      } else if !DataType(t) {
        return false, calls;
      } else {
        var more;
        ok, more := TranscodeValue(r, t);
        FieldRead(r, start, t, id, pos, before, ok, r.position, more);
        if !ok {
          return;
        }
        calls := calls + [FieldBegin(t, id)] + more;
      }
      header := r.ReadFieldBegin();
      if header == None {
        return false, calls;
      }
    }
    calls := calls + [StructEnd];
  }

  lemma StructOnly(v: Value)
    requires Valid(v) && TypeOf(v) == BT_STRUCT
    ensures v.Struct? && ValidBody(v.body)
  {
  }

  lemma BothPasses(p: Protocol, v: Value, s: Writer.State)
    requires Valid(v) && v.Struct? && s.first == Counter.State([], [])
    requires p == CompactV2 ==> |EncodeBody(CompactV2, v.body)| < U32
    ensures Writer.Step(p, s, BondedBegin(CallsOf(Streaming, v))).Some?
    ensures Run(Writer.Steps(p), Writer.Step(p, s, BondedBegin(CallsOf(Streaming, v))).value, CallsOf(Streaming, v))
         == Some(Writer.Emit(s, EncodeValue(p, v)))
  {
    hide EncodeBody, EncodeValue, Writer.Step, CallsOfStruct;
    var calls := CallsOfStruct(Streaming, v.body);
    assert !Streaming.bonded;
    assert CallsOf(Streaming, v) == calls by { assert [] + calls == calls; }
    Lockstep.TwoPasses(p, Streaming, v.body, s);
    RunCons(Writer.Steps(p), s, BondedBegin(calls), calls);
    assert Writer.Steps(p)(s, BondedBegin(calls)) == Writer.Step(p, s, BondedBegin(calls));
  }

  /** Where the payload has the encoding of a struct, that struct is what is read. */
  lemma Encodings(r: TaggedReader)
    ensures forall v :: Valid(v) && v.Struct? && At(r.data, r.position, EncodeValue(r.protocol, v)) ==>
              ParseValue(r.protocol, BT_STRUCT, r.data, r.position)
              == Some((v, r.position + |EncodeValue(r.protocol, v)|))
  {
    hide ParseValue, EncodeValue, Valid;
    forall v | Valid(v) && v.Struct? && At(r.data, r.position, EncodeValue(r.protocol, v))
      ensures ParseValue(r.protocol, BT_STRUCT, r.data, r.position)
           == Some((v, r.position + |EncodeValue(r.protocol, v)|))
    {
      ValueRoundTrip(r.protocol, v, r.data, r.position);
    }
  }

  /** Transcoding a struct: if the writer offers a first pass, a clone of the reader is run through
      it first; then the reader itself is run through the writer. */
  method Transcode(r: TaggedReader, w: Writer.ProtocolWriter) returns (ok: bool)
    modifies r, w, w.firstPassWriter
    ensures match ParseValue(r.protocol, BT_STRUCT, r.data, old(r.position))
            case None => true
            case Some((v, next)) =>
              && Valid(v)
              && (old(w.Now()).first == Counter.State([], [])
                  && (w.protocol == CompactV2 ==> |EncodeBody(CompactV2, v.body)| < U32)
                  ==> ok && r.position == next
                      && w.Now() == Writer.Emit(old(w.Now()), EncodeValue(w.protocol, v)))
    ensures forall v :: Valid(v) && v.Struct? && At(r.data, old(r.position), EncodeValue(r.protocol, v))
              && old(w.Now()).first == Counter.State([], [])
              && (w.protocol == CompactV2 ==> |EncodeBody(CompactV2, v.body)| < U32)
              ==> ok && w.Now() == Writer.Emit(old(w.Now()), EncodeValue(w.protocol, v))
  {
    Encodings(r);
    hide ParseValue, Valid, EncodeBody, EncodeValue;
    ghost var whole := ParseValue(r.protocol, BT_STRUCT, r.data, r.position);
    ghost var before := w.Now();
    if whole.Some? {
      ParsedIsValid(r.protocol, BT_STRUCT, r.data, r.position);
      var v := whole.value.0;
      StructOnly(v);
      if before.first == Counter.State([], []) && (w.protocol == CompactV2 ==> |EncodeBody(CompactV2, v.body)| < U32) {
        BothPasses(w.protocol, v, before);
      }
    }
    var calls;
    ok := true;
    if w.protocol == CompactV2 && w.firstPassWriter.lengths == [] {
      var clone := r.Clone();
      ok, calls := TranscodeStruct(clone);
      if !ok {
        return;
      }
      ok := w.FirstPass(calls);
      if !ok {
        return;
      }
    } else {
      assert forall c :: Writer.Step(w.protocol, before, BondedBegin(c)) == Some(before);
    }
    ok, calls := TranscodeStruct(r);
    if !ok {
      return;
    }
    ok := w.PerformAll(calls);
  }
}
