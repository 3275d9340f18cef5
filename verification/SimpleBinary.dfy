/** The untagged Simple Binary protocol: values in schema order without any framing. */
module SimpleBinary {
  import opened Bytes
  import opened Varint
  import opened Input
  import opened Wire
  import opened Grammar
  import opened RoundTrip
  import opened Deserialization

  /** Version 2 has variable-length counts. */
  function EncodeCount(v2: bool, count: nat): seq<byte> {
    if v2 then Encode(count) else LittleEndian(count, 4)
  }

  function ReadCount(v2: bool, data: seq<byte>, pos: nat): (r: Option<(nat, nat)>)
    ensures r.Some? ==> pos < r.value.1 <= |data|
  {
    match if v2 then ReadVar(data, pos, 4) else ReadFixed(data, pos, 4)
    case None => None
    case Some((count, next)) => if count <= INT_MAX then Some((count, next)) else None
  }

  lemma CountRoundTrip(v2: bool, count: nat, data: seq<byte>, pos: nat)
    requires count <= INT_MAX && At(data, pos, EncodeCount(v2, count))
    ensures ReadCount(v2, data, pos) == Some((count, pos + |EncodeCount(v2, count)|))
  {
    if v2 {
      ReadVarRoundTrip(data, pos, count, 4);
    } else {
      RoundTrip.Pow256Values();
      LittleEndianRoundTrip(data, pos, count, 4);
    }
  }

  function EncodeScalar(v2: bool, v: Value): seq<byte>
    requires v.Num? || v.Raw?
  {
    match v
    case Num(t, n) => EncodeNum(Fast, t, n)
    case Raw(t, raw) =>
      if t == BT_STRING then EncodeCount(v2, |raw|) + raw
      else if t == BT_WSTRING then EncodeCount(v2, |raw| / 2) + raw
      else raw
  }

  function EncodeSimple(v2: bool, v: Value): seq<byte> {
    match v
    case List(_, _, items) => EncodeCount(v2, Count(items)) + EncodeSimpleItems(v2, items)
    case Map(_, _, entries) => EncodeCount(v2, CountEntries(entries)) + EncodeSimpleEntries(v2, entries)
    case Struct(body) => EncodeSimpleBody(v2, body)
    case _ => EncodeScalar(v2, v)
  }

  function EncodeSimpleItems(v2: bool, items: Items): seq<byte> {
    match items
    case NoItems => []
    case Item(head, tail) => EncodeSimple(v2, head) + EncodeSimpleItems(v2, tail)
  }

  function EncodeSimpleEntries(v2: bool, entries: Entries): seq<byte> {
    match entries
    case NoEntries => []
    case Entry(k, v, rest) => EncodeSimple(v2, k) + (EncodeSimple(v2, v) + EncodeSimpleEntries(v2, rest))
  }

  function EncodeSimpleBody(v2: bool, body: Body): seq<byte> {
    match body
    case Stop => []
    case StopBase(next) => EncodeSimpleBody(v2, next)
    case Field(_, v, next) => EncodeSimple(v2, v) + EncodeSimpleBody(v2, next)
  }

  // ---------------------------------------------------- values of a schema

  /** `v` is a value of type `ft` with all its fields, in schema order. */
  predicate Conforms(schema: seq<StructDef>, ft: FieldType, v: Value)
    decreases SizeOf(v), 0, 0
  {
    match ft
    case Scalar(t) => (v.Num? || v.Raw?) && v.t == t && Valid(v)
    case StructOf(s) => v.Struct? && s < |schema| && Levels(schema, s, v.body) == Some(Stop)
    case ContainerOf(t, elem) =>
      && (t == BT_LIST || t == BT_SET) && v.List? && v.t == t && v.elem == BondType(elem)
      && Count(v.items) <= INT_MAX && ConformItems(schema, elem, v.items)
    case MapOf(key, elem) =>
      && v.Map? && v.key == BondType(key) && v.elem == BondType(elem) && CountEntries(v.entries) <= INT_MAX
      && ConformEntries(schema, key, elem, v.entries)
  }

  predicate ConformItems(schema: seq<StructDef>, elem: FieldType, items: Items)
    decreases SizeOfItems(items), 0, 0
  {
    match items
    case NoItems => true
    case Item(head, tail) => Conforms(schema, elem, head) && ConformItems(schema, elem, tail)
  }

  predicate ConformEntries(schema: seq<StructDef>, key: FieldType, elem: FieldType, entries: Entries)
    decreases SizeOfEntries(entries), 0, 0
  {
    match entries
    case NoEntries => true
    case Entry(k, v, rest) =>
      Conforms(schema, key, k) && Conforms(schema, elem, v) && ConformEntries(schema, key, elem, rest)
  }

  /** If `body` starts with the levels of struct `s`: what follows them, an end marker. */
  function Levels(schema: seq<StructDef>, s: nat, body: Body): (r: Option<Body>)
    requires s < |schema|
    ensures r.Some? ==> SizeOfBody(r.value) <= SizeOfBody(body)
    decreases SizeOfBody(body), 2, s
  {
    match Base(schema, s)
    case None => Level(schema, schema[s].fields, body)
    case Some(base) =>
      match Levels(schema, base, body)
      case Some(StopBase(next)) => Level(schema, schema[s].fields, next)
      case _ => None
  }

  function Level(schema: seq<StructDef>, fields: Fields, body: Body): (r: Option<Body>)
    ensures r.Some? ==> SizeOfBody(r.value) <= SizeOfBody(body) && !r.value.Field?
    decreases SizeOfBody(body), 1, fields
  {
    match fields
    case NoFields => if body.Field? then None else Some(body)
    case FieldDef(id, _, ft, rest) =>
      if body.Field? && body.id == id && Conforms(schema, ft, body.value) then Level(schema, rest, body.next) else None
  }

  // ------------------------------------------------------------------ skipping

  function ReadScalar(v2: bool, t: byte, data: seq<byte>, pos: nat): (r: Option<(Value, nat)>)
    ensures r.Some? ==> pos <= r.value.1
  {
    if Numeric(t) then
      match ParseNum(Fast, t, data, pos)
      case None => None
      case Some((n, next)) => Some((Num(t, n), next))
    else if t == BT_FLOAT || t == BT_DOUBLE then
      match ReadBytes(data, pos, if t == BT_FLOAT then 4 else 8)
      case None => None
      case Some((raw, next)) => Some((Raw(t, raw), next))
    else if t == BT_STRING || t == BT_WSTRING then
      match ReadCount(v2, data, pos)
      case None => None
      case Some((units, next)) =>
        match ReadBytes(data, next, if t == BT_STRING then units else 2 * units)
        case None => None
        case Some((raw, after)) => Some((Raw(t, raw), after))
    else None
  }

  function SkipScalar(v2: bool, t: byte, data: seq<byte>, pos: nat): (r: Option<nat>)
    ensures r.Some? ==> pos <= r.value
  {
    if Numeric(t) then Some(pos + Size(t))
    else if t == BT_FLOAT then Some(pos + 4)
    else if t == BT_DOUBLE then Some(pos + 8)
    else if t == BT_STRING || t == BT_WSTRING then
      match ReadCount(v2, data, pos)
      case None => None
      case Some((units, next)) => Some(next + if t == BT_STRING then units else 2 * units)
    else None
  }

  lemma ScalarRoundTrip(v2: bool, v: Value, data: seq<byte>, pos: nat)
    requires (v.Num? || v.Raw?) && Valid(v) && At(data, pos, EncodeScalar(v2, v))
    ensures ReadScalar(v2, v.t, data, pos) == Some((v, pos + |EncodeScalar(v2, v)|))
    ensures SkipScalar(v2, v.t, data, pos) == Some(pos + |EncodeScalar(v2, v)|)
  {
    hide EncodeNum, ParseNum, EncodeCount, ReadCount, InRange;
    match v
    case Num(t, n) =>
      NumRoundTrip(Fast, t, n, data, pos);
      FastSize(t, n);
    case Raw(t, raw) =>
      if t == BT_STRING || t == BT_WSTRING {
        CountedRoundTrip(v2, t, raw, data, pos);
      }
  }

  lemma CountedRoundTrip(v2: bool, t: byte, raw: seq<byte>, data: seq<byte>, pos: nat)
    requires (t == BT_STRING || t == BT_WSTRING) && OpaqueShape(t, raw) && At(data, pos, EncodeScalar(v2, Raw(t, raw)))
    ensures ReadScalar(v2, t, data, pos) == Some((Raw(t, raw), pos + |EncodeScalar(v2, Raw(t, raw))|))
    ensures SkipScalar(v2, t, data, pos) == Some(pos + |EncodeScalar(v2, Raw(t, raw))|)
  {
    hide EncodeCount, ReadCount;
    var units := if t == BT_STRING then |raw| else |raw| / 2;
    AtConcat(data, pos, EncodeCount(v2, units), raw);
    CountRoundTrip(v2, units, data, pos);
  }

  lemma FastSize(t: byte, n: int)
    requires Numeric(t)
    ensures |EncodeNum(Fast, t, n)| == Size(t)
  {
  }

  /** Skipping a value by its schema. A nested struct takes one unit of `fuel`. */
  function Skip(fuel: nat, v2: bool, schema: seq<StructDef>, ft: FieldType, data: seq<byte>, pos: nat)
    : (r: Option<nat>)
    ensures r.Some? ==> pos <= r.value
    decreases fuel, 0, ft, 1, 0
  {
    match ft
    case Scalar(t) => SkipScalar(v2, t, data, pos)
    case StructOf(s) => if fuel == 0 || s >= |schema| then None else SkipStruct(fuel - 1, v2, schema, s, data, pos)
    case ContainerOf(t, elem) =>
      (match ReadCount(v2, data, pos)
       case None => None
       case Some((count, next)) =>
         if t == BT_LIST && (BondType(elem) == BT_UINT8 || BondType(elem) == BT_INT8) then Some(next + count)
         else SkipItems(fuel, v2, schema, ft, count, data, next))
    case MapOf(key, elem) =>
      match ReadCount(v2, data, pos)
      case None => None
      case Some((count, next)) => SkipEntries(fuel, v2, schema, ft, count, data, next)
  }

  function SkipItems(fuel: nat, v2: bool, schema: seq<StructDef>, ft: FieldType, count: nat, data: seq<byte>, pos: nat)
    : (r: Option<nat>)
    requires ft.ContainerOf?
    ensures r.Some? ==> pos <= r.value
    decreases fuel, 0, ft, 0, count
  {
    if count == 0 then Some(pos)
    else
      match Skip(fuel, v2, schema, ft.elem, data, pos)
      case None => None
      case Some(next) => SkipItems(fuel, v2, schema, ft, count - 1, data, next)
  }

  function SkipEntries(fuel: nat, v2: bool, schema: seq<StructDef>, ft: FieldType, count: nat, data: seq<byte>,
                       pos: nat)
    : (r: Option<nat>)
    requires ft.MapOf?
    ensures r.Some? ==> pos <= r.value
    decreases fuel, 0, ft, 0, count
  {
    if count == 0 then Some(pos)
    else
      match Skip(fuel, v2, schema, ft.key, data, pos)
      case None => None
      case Some(mid) =>
        match Skip(fuel, v2, schema, ft.elem, data, mid)
        case None => None
        case Some(next) => SkipEntries(fuel, v2, schema, ft, count - 1, data, next)
  }

  function SkipStruct(fuel: nat, v2: bool, schema: seq<StructDef>, s: nat, data: seq<byte>, pos: nat)
    : (r: Option<nat>)
    requires s < |schema|
    ensures r.Some? ==> pos <= r.value
    decreases fuel, 2, s, 0, 0
  {
    match Base(schema, s)
    case None => SkipFields(fuel, v2, schema, schema[s].fields, data, pos)
    case Some(base) =>
      match SkipStruct(fuel, v2, schema, base, data, pos)
      case None => None
      case Some(next) => SkipFields(fuel, v2, schema, schema[s].fields, data, next)
  }

  function SkipFields(fuel: nat, v2: bool, schema: seq<StructDef>, fields: Fields, data: seq<byte>,
                      pos: nat): (r: Option<nat>)
    ensures r.Some? ==> pos <= r.value
    decreases fuel, 1, fields, 0, 0
  {
    match fields
    case NoFields => Some(pos)
    case FieldDef(_, _, ft, rest) =>
      match Skip(fuel, v2, schema, ft, data, pos)
      case None => None
      case Some(next) => SkipFields(fuel, v2, schema, rest, data, next)
  }

  /** Skipping ends exactly behind the value, for any value of the schema. */
  lemma {:induction false} SkipEnds(fuel: nat, v2: bool, schema: seq<StructDef>, ft: FieldType, v: Value,
                                    data: seq<byte>, pos: nat)
    requires Conforms(schema, ft, v) && fuel >= SizeOf(v)
    requires At(data, pos, EncodeSimple(v2, v))
    ensures Skip(fuel, v2, schema, ft, data, pos) == Some(pos + |EncodeSimple(v2, v)|)
    decreases SizeOf(v), 0, 2
  {
    match ft
    case Scalar(t) => ScalarRoundTrip(v2, v, data, pos);
    case StructOf(s) => SkipStructEnds(fuel - 1, v2, schema, s, v.body, data, pos);
    case ContainerOf(_, _) => SkipContainerEnds(fuel, v2, schema, ft, v, data, pos);
    case MapOf(_, _) => SkipMapEnds(fuel, v2, schema, ft, v, data, pos);
  }

  lemma {:induction false} SkipContainerEnds(fuel: nat, v2: bool, schema: seq<StructDef>, ft: FieldType, v: Value,
                                             data: seq<byte>, pos: nat)
    requires Conforms(schema, ft, v) && fuel >= SizeOf(v)
    requires ft.ContainerOf? && At(data, pos, EncodeSimple(v2, v))
    ensures Skip(fuel, v2, schema, ft, data, pos) == Some(pos + |EncodeSimple(v2, v)|)
    decreases SizeOf(v), 0, 1
  {
    hide EncodeCount, ReadCount, SkipItems, EncodeSimpleItems, ConformItems, At;
    var count := EncodeCount(v2, Count(v.items));
    AtConcat(data, pos, count, EncodeSimpleItems(v2, v.items));
    CountRoundTrip(v2, Count(v.items), data, pos);
    if BondType(ft.elem) == BT_UINT8 || BondType(ft.elem) == BT_INT8 {
      OneByteItems(v2, schema, ft.elem, v.items);
    }
    SkipItemsEnd(fuel, v2, schema, ft, v.items, data, pos + |count|);
  }

  lemma {:induction false} SkipMapEnds(fuel: nat, v2: bool, schema: seq<StructDef>, ft: FieldType, v: Value,
                                       data: seq<byte>, pos: nat)
    requires Conforms(schema, ft, v) && fuel >= SizeOf(v)
    requires ft.MapOf? && At(data, pos, EncodeSimple(v2, v))
    ensures Skip(fuel, v2, schema, ft, data, pos) == Some(pos + |EncodeSimple(v2, v)|)
    decreases SizeOf(v), 0, 1
  {
    hide EncodeCount, ReadCount, SkipEntries, EncodeSimpleEntries, ConformEntries, At;
    var count := EncodeCount(v2, CountEntries(v.entries));
    AtConcat(data, pos, count, EncodeSimpleEntries(v2, v.entries));
    CountRoundTrip(v2, CountEntries(v.entries), data, pos);
    SkipEntriesEnd(fuel, v2, schema, ft, v.entries, data, pos + |count|);
  }

  lemma {:induction false} OneByteItems(v2: bool, schema: seq<StructDef>, elem: FieldType, items: Items)
    requires ConformItems(schema, elem, items)
    requires BondType(elem) == BT_UINT8 || BondType(elem) == BT_INT8
    ensures |EncodeSimpleItems(v2, items)| == Count(items)
  {
    match items
    case NoItems =>
    case Item(head, tail) =>
      assert elem.Scalar? && head.Num? by { assert Conforms(schema, elem, head); }
      FastSize(head.t, head.n);
      OneByteItems(v2, schema, elem, tail);
  }

  lemma {:induction false} SkipItemsEnd(fuel: nat, v2: bool, schema: seq<StructDef>, ft: FieldType, items: Items,
                                        data: seq<byte>, pos: nat)
    requires ft.ContainerOf? && ConformItems(schema, ft.elem, items)
    requires fuel >= SizeOfItems(items) && At(data, pos, EncodeSimpleItems(v2, items))
    ensures SkipItems(fuel, v2, schema, ft, Count(items), data, pos) == Some(pos + |EncodeSimpleItems(v2, items)|)
    decreases SizeOfItems(items), 0, 0
  {
    hide EncodeSimple, Skip, Conforms, At;
    match items
    case NoItems =>
    case Item(head, tail) =>
      AtConcat(data, pos, EncodeSimple(v2, head), EncodeSimpleItems(v2, tail));
      SkipEnds(fuel, v2, schema, ft.elem, head, data, pos);
      SkipItemsEnd(fuel, v2, schema, ft, tail, data, pos + |EncodeSimple(v2, head)|);
  }

  lemma {:induction false} SkipEntriesEnd(fuel: nat, v2: bool, schema: seq<StructDef>, ft: FieldType, entries: Entries,
                                          data: seq<byte>, pos: nat)
    requires ft.MapOf? && ConformEntries(schema, ft.key, ft.elem, entries)
    requires fuel >= SizeOfEntries(entries) && At(data, pos, EncodeSimpleEntries(v2, entries))
    ensures SkipEntries(fuel, v2, schema, ft, CountEntries(entries), data, pos)
         == Some(pos + |EncodeSimpleEntries(v2, entries)|)
    decreases SizeOfEntries(entries), 0, 0
  {
    hide EncodeSimple, Skip, Conforms, At, SkipEntries;
    match entries
    case NoEntries => NoEntrySkipped(fuel, v2, schema, ft, data, pos);
    case Entry(k, v, rest) =>
      var mid := pos + |EncodeSimple(v2, k)|;
      var next := mid + |EncodeSimple(v2, v)|;
      SkipPairEnds(fuel, v2, schema, ft, k, v, EncodeSimpleEntries(v2, rest), data, pos);
      SkipEntriesEnd(fuel, v2, schema, ft, rest, data, next);
      SkipEntry(fuel, v2, schema, ft, CountEntries(entries), data, pos, mid, next);
  }

  lemma {:induction false} SkipPairEnds(fuel: nat, v2: bool, schema: seq<StructDef>, ft: FieldType, k: Value, v: Value,
                                        rest: seq<byte>, data: seq<byte>, pos: nat)
    requires ft.MapOf? && Conforms(schema, ft.key, k) && Conforms(schema, ft.elem, v)
    requires fuel >= SizeOf(k) + SizeOf(v) && At(data, pos, EncodeSimple(v2, k) + (EncodeSimple(v2, v) + rest))
    ensures var mid := pos + |EncodeSimple(v2, k)|;
            && Skip(fuel, v2, schema, ft.key, data, pos) == Some(mid)
            && Skip(fuel, v2, schema, ft.elem, data, mid) == Some(mid + |EncodeSimple(v2, v)|)
            && At(data, mid + |EncodeSimple(v2, v)|, rest)
    decreases SizeOf(k) + SizeOf(v), 1, 0
  {
    hide EncodeSimple, Skip, Conforms, At;
    var ek, ev := EncodeSimple(v2, k), EncodeSimple(v2, v);
    AtConcat(data, pos, ek, ev + rest);
    AtConcat(data, pos + |ek|, ev, rest);
    SkipEnds(fuel, v2, schema, ft.key, k, data, pos);
    SkipEnds(fuel, v2, schema, ft.elem, v, data, pos + |ek|);
  }

  lemma NoEntrySkipped(fuel: nat, v2: bool, schema: seq<StructDef>, ft: FieldType, data: seq<byte>, pos: nat)
    requires ft.MapOf?
    ensures SkipEntries(fuel, v2, schema, ft, 0, data, pos) == Some(pos)
  {
  }

  lemma SkipEntry(fuel: nat, v2: bool, schema: seq<StructDef>, ft: FieldType, count: nat, data: seq<byte>, pos: nat,
                  mid: nat, next: nat)
    requires ft.MapOf? && count > 0
    requires Skip(fuel, v2, schema, ft.key, data, pos) == Some(mid)
    requires Skip(fuel, v2, schema, ft.elem, data, mid) == Some(next)
    ensures SkipEntries(fuel, v2, schema, ft, count, data, pos)
         == SkipEntries(fuel, v2, schema, ft, count - 1, data, next)
  {
  }

  /** From the encoding of `body` at `pos`, `r` has gone as far as where that of `rest` begins. */
  ghost predicate Passes(v2: bool, body: Body, rest: Body, data: seq<byte>, pos: nat, r: Option<nat>) {
    && r.Some? && r.value == pos + |EncodeSimpleBody(v2, body)| - |EncodeSimpleBody(v2, rest)|
    && At(data, r.value, EncodeSimpleBody(v2, rest))
  }

  lemma PassesNothing(v2: bool, body: Body, data: seq<byte>, pos: nat)
    requires At(data, pos, EncodeSimpleBody(v2, body))
    ensures Passes(v2, body, body, data, pos, Some(pos))
  {
  }

  /** The end of a base is not marked. */
  lemma PassesBase(v2: bool, body: Body, next: Body, rest: Body, data: seq<byte>, pos: nat, mid: Option<nat>,
                   r: Option<nat>)
    requires Passes(v2, body, StopBase(next), data, pos, mid)
    ensures At(data, mid.value, EncodeSimpleBody(v2, next))
    ensures Passes(v2, next, rest, data, mid.value, r) ==> Passes(v2, body, rest, data, pos, r)
  {
  }

  lemma PassesField(v2: bool, body: Body, rest: Body, data: seq<byte>, pos: nat, r: Option<nat>)
    requires body.Field? && At(data, pos, EncodeSimpleBody(v2, body))
    ensures var next := pos + |EncodeSimple(v2, body.value)|;
            && At(data, pos, EncodeSimple(v2, body.value)) && At(data, next, EncodeSimpleBody(v2, body.next))
            && (Passes(v2, body.next, rest, data, next, r) ==> Passes(v2, body, rest, data, pos, r))
  {
    AtConcat(data, pos, EncodeSimple(v2, body.value), EncodeSimpleBody(v2, body.next));
  }

  lemma {:induction false} SkipStructEnds(fuel: nat, v2: bool, schema: seq<StructDef>, s: nat, body: Body,
                                          data: seq<byte>, pos: nat)
    requires s < |schema| && Levels(schema, s, body).Some? && fuel >= SizeOfBody(body)
    requires At(data, pos, EncodeSimpleBody(v2, body))
    ensures Passes(v2, body, Levels(schema, s, body).value, data, pos, SkipStruct(fuel, v2, schema, s, data, pos))
    decreases SizeOfBody(body), 2, s
  {
    hide At, Passes, Level, SkipFields, EncodeSimpleBody;
    match Base(schema, s)
    case None => SkipFieldsEnd(fuel, v2, schema, schema[s].fields, body, data, pos);
    case Some(base) =>
      SkipStructEnds(fuel, v2, schema, base, body, data, pos);
      var next := Levels(schema, base, body).value.next;
      var mid := SkipStruct(fuel, v2, schema, base, data, pos);
      var rest := Level(schema, schema[s].fields, next).value;
      assert mid.Some? by { PassesIsSome(v2, body, StopBase(next), data, pos, mid); }
      PassesBase(v2, body, next, rest, data, pos, mid, SkipStruct(fuel, v2, schema, s, data, pos));
      SkipFieldsEnd(fuel, v2, schema, schema[s].fields, next, data, mid.value);
  }

  lemma PassesIsSome(v2: bool, body: Body, rest: Body, data: seq<byte>, pos: nat, r: Option<nat>)
    requires Passes(v2, body, rest, data, pos, r)
    ensures r.Some?
  {
  }

  lemma {:induction false} SkipFieldsEnd(fuel: nat, v2: bool, schema: seq<StructDef>, fields: Fields, body: Body,
                                         data: seq<byte>, pos: nat)
    requires Level(schema, fields, body).Some?
    requires fuel >= SizeOfBody(body) && At(data, pos, EncodeSimpleBody(v2, body))
    ensures Passes(v2, body, Level(schema, fields, body).value, data, pos,
                   SkipFields(fuel, v2, schema, fields, data, pos))
    decreases SizeOfBody(body), 1, fields
  {
    hide At, Passes, EncodeSimpleBody, EncodeSimple, Skip, Conforms;
    match fields
    case NoFields => PassesNothing(v2, body, data, pos);
    case FieldDef(_, _, ft, rest) =>
      var next := pos + |EncodeSimple(v2, body.value)|;
      PassesField(v2, body, Level(schema, fields, body).value, data, pos,
                  SkipFields(fuel, v2, schema, rest, data, next));
      SkipEnds(fuel, v2, schema, ft, body.value, data, pos);
      SkipFieldsEnd(fuel, v2, schema, rest, body.next, data, next);
  }
}
