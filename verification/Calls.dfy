/** The calls a serializer or transcoder makes on a protocol writer. Calls that no tagged binary
    writer reacts to (base begin, field end, field omitted, container end) are not listed. */
module Calls {
  import opened Bytes
  import opened Varint
  import opened Wire

  type DataTag = t: byte | DataType(t) witness BT_BOOL
  type FieldId = id: nat | id < U16
  type ItemCount = n: nat | n <= INT_MAX

  datatype Call =
    | StructBegin
    | StructEnd
    | BaseEnd
    | FieldBegin(t: DataTag, id: FieldId)
    | ContainerBegin(count: ItemCount, elem: DataTag)
    | MapBegin(entries: ItemCount, key: DataTag, mapped: DataTag)
    | WriteNum(t: DataTag, n: int)
    | WriteRaw(t: DataTag, raw: seq<byte>)
    | WriteBytes(bytes: seq<byte>)
      // serializing a bonded value asks the writer for a first pass over `nested`, the calls
      // that then follow
    | BondedBegin(nested: seq<Call>)

  /** Which nested structs the object holds as bonded values, and which byte containers it can
      hand over as one array segment: a choice for every single member, free whatever its value.
      The first part of a value takes the style's first branch, the others the rest of it. */
  datatype Style =
    | Same(bonded: bool, bulk: bool)
    | Fork(bonded: bool, bulk: bool, first: Style, rest: Style)

  function First(style: Style): Style {
    if style.Fork? then style.first else style
  }

  function Rest(style: Style): Style {
    if style.Fork? then style.rest else style
  }

  predicate ByteType(t: byte) { t == BT_UINT8 || t == BT_INT8 }

  function ItemBytes(elem: byte, items: Items): (r: seq<byte>)
    requires ByteType(elem) && ValidItems(elem, items)
    ensures |r| == Count(items)
  {
    match items
    case NoItems => []
    case Item(head, tail) =>
      assert Valid(head) && TypeOf(head) == elem;
      [Unsigned(head.n, 256)] + ItemBytes(elem, tail)
  }

  function CallsOf(style: Style, v: Value): seq<Call>
    requires Valid(v)
    decreases v
  {
    match v
    case Num(t, n) => [WriteNum(t, n)]
    case Raw(t, raw) => [WriteRaw(t, raw)]
    case List(_, elem, items) => [ContainerBegin(Count(items), elem)] + CallsOfList(style, elem, items)
    case Map(key, elem, entries) =>
      [MapBegin(CountEntries(entries), key, elem)] + CallsOfEntries(style, key, elem, entries)
    case Struct(body) =>
      (if style.bonded then [BondedBegin(CallsOfStruct(style, body))] else []) + CallsOfStruct(style, body)
  }

  function CallsOfStruct(style: Style, body: Body): seq<Call>
    requires ValidBody(body)
    decreases body, 1
  {
    [StructBegin] + CallsOfBody(style, body)
  }

  function CallsOfList(style: Style, elem: byte, items: Items): seq<Call>
    requires ValidItems(elem, items)
    decreases items, 1
  {
    if ByteType(elem) && style.bulk then [WriteBytes(ItemBytes(elem, items))]
    else CallsOfItems(style, elem, items)
  }

  function CallsOfItems(style: Style, elem: byte, items: Items): seq<Call>
    requires ValidItems(elem, items)
    decreases items, 0
  {
    match items
    case NoItems => []
    case Item(head, tail) => CallsOf(First(style), head) + CallsOfItems(Rest(style), elem, tail)
  }

  function CallsOfEntries(style: Style, key: byte, elem: byte, entries: Entries): seq<Call>
    requires ValidEntries(key, elem, entries)
    decreases entries, 0
  {
    match entries
    case NoEntries => []
    case Entry(k, v, rest) =>
      CallsOf(First(style), k)
      + (CallsOf(First(Rest(style)), v) + CallsOfEntries(Rest(Rest(style)), key, elem, rest))
  }

  function CallsOfBody(style: Style, body: Body): seq<Call>
    requires ValidBody(body)
    decreases body, 0
  {
    match body
    case Stop => [StructEnd]
    case StopBase(next) => [BaseEnd] + CallsOfBody(style, next)
    case Field(id, v, next) =>
      [FieldBegin(TypeOf(v), id)] + (CallsOf(First(style), v) + CallsOfBody(Rest(style), next))
  }

  /** A writer is a state machine over calls; `None` is an exception. */
  function Run<S>(step: (S, Call) -> Option<S>, s: S, calls: seq<Call>): Option<S>
    decreases |calls|
  {
    if calls == [] then Some(s)
    else
      match step(s, calls[0])
      case None => None
      case Some(next) => Run(step, next, calls[1..])
  }

  lemma RunOne<S>(step: (S, Call) -> Option<S>, s: S, call: Call)
    ensures Run(step, s, [call]) == step(s, call)
  {
  }

  lemma {:induction false} RunConcat<S>(step: (S, Call) -> Option<S>, s: S, a: seq<Call>, b: seq<Call>)
    ensures Run(step, s, a + b) == match Run(step, s, a) case None => None case Some(mid) => Run(step, mid, b)
    decreases |a|
  {
    if a == [] {
      assert a + b == b;
    } else {
      assert (a + b)[0] == a[0] && (a + b)[1..] == a[1..] + b;
      match step(s, a[0])
      case None =>
      case Some(next) => RunConcat(step, next, a[1..], b);
    }
  }

  lemma RunCons<S>(step: (S, Call) -> Option<S>, s: S, call: Call, rest: seq<Call>)
    ensures Run(step, s, [call] + rest)
         == match step(s, call) case None => None case Some(next) => Run(step, next, rest)
  {
    assert ([call] + rest)[1..] == rest;
  }
}
