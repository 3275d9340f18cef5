/** Reading a struct into another type that shares its root-most levels: the untagged parser over
    Simple Binary and the tagged parser give the same object and both end behind the struct. Here each
    nested struct is read by its own schema; `UntaggedGenerator` has the code that is generated, which
    does not always do so. */
module Slicing {
  import opened Bytes
  import opened Wire
  import opened Deserialization
  import opened SimpleBinary

  function Depth(schema: seq<StructDef>, s: nat): (d: nat)
    requires s < |schema|
    ensures d >= 1
  {
    match Base(schema, s)
    case None => 1
    case Some(base) => 1 + Depth(schema, base)
  }

  function Lookup(fields: Fields, id: nat): Option<FieldType>
  {
    match fields
    case NoFields => None
    case FieldDef(id', _, ft, rest) => if id' == id then Some(ft) else Lookup(rest, id)
  }

  /** The type of a field is compared before it is read, that of an item is not. */
  predicate Fits(pt: FieldType, ft: FieldType) {
    ft.Scalar? || BondType(pt) == BondType(ft)
  }

  /** Reading a value of the payload's type `pt` into a variable of type `ft`, in the schemas `ps`
      and `ts`. A nested struct takes one unit of `fuel`. */
  function Read(fuel: nat, v2: bool, ps: seq<StructDef>, pt: FieldType, ts: seq<StructDef>, ft: FieldType,
                data: seq<byte>, pos: nat): Option<(seq<Effect>, nat)>
    decreases fuel, 0, pt, 1, 0
  {
    match (pt, ft)
    case (Scalar(t), Scalar(_)) =>
      (match ReadScalar(v2, t, data, pos)
       case None => None
       case Some((v, next)) => Some(([Leaf(v)], next)))
    case (StructOf(p), StructOf(s)) =>
      if fuel == 0 || p >= |ps| || s >= |ts| then None
      else
        (match ReadStruct(fuel - 1, v2, ps, p, ts, s, data, pos)
         case None => None
         case Some((effects, next)) => Some(([Fill(s)] + effects + [Filled(s)], next)))
    case (ContainerOf(_, _), ContainerOf(_, elem)) =>
      (match ReadCount(v2, data, pos)
       case None => None
       case Some((count, start)) =>
         match ReadItems(fuel, v2, ps, pt, ts, elem, count, data, start)
         case None => None
         case Some((effects, next)) => Some(([Resize(count)] + effects, next)))
    case (MapOf(_, _), MapOf(_, _)) =>
      (match ReadCount(v2, data, pos)
       case None => None
       case Some((count, start)) =>
         match ReadEntries(fuel, v2, ps, pt, ts, ft, count, data, start)
         case None => None
         case Some((effects, next)) => Some(([Resize(count)] + effects, next)))
    case _ => None
  }

  function ReadItems(fuel: nat, v2: bool, ps: seq<StructDef>, pt: FieldType, ts: seq<StructDef>, elem: FieldType,
                     count: nat, data: seq<byte>, pos: nat): Option<(seq<Effect>, nat)>
    requires pt.ContainerOf?
    decreases fuel, 0, pt, 0, count
  {
    if count == 0 then Some(([], pos))
    else
      match Read(fuel, v2, ps, pt.elem, ts, elem, data, pos)
      case None => None
      case Some((head, mid)) =>
        match ReadItems(fuel, v2, ps, pt, ts, elem, count - 1, data, mid)
        case None => None
        case Some((tail, next)) => Some((head + tail, next))
  }

  function ReadEntries(fuel: nat, v2: bool, ps: seq<StructDef>, pt: FieldType, ts: seq<StructDef>, ft: FieldType,
                       count: nat, data: seq<byte>, pos: nat): Option<(seq<Effect>, nat)>
    requires pt.MapOf? && ft.MapOf?
    decreases fuel, 0, pt, 0, count
  {
    if count == 0 then Some(([], pos))
    else
      match Read(fuel, v2, ps, pt.key, ts, ft.key, data, pos)
      case None => None
      case Some((k, mid)) =>
        match Read(fuel, v2, ps, pt.elem, ts, ft.elem, data, mid)
        case None => None
        case Some((v, after)) =>
          match ReadEntries(fuel, v2, ps, pt, ts, ft, count - 1, data, after)
          case None => None
          case Some((rest, next)) => Some((k + (v + rest), next))
  }

  /** While the payload's hierarchy is deeper than the target's, only its base is read into the
      target and the fields of the level are skipped. */
  function ReadStruct(fuel: nat, v2: bool, ps: seq<StructDef>, p: nat, ts: seq<StructDef>, s: nat,
                      data: seq<byte>, pos: nat): Option<(seq<Effect>, nat)>
    requires p < |ps| && s < |ts|
    decreases fuel, 2, p, 0, 0
  {
    if Depth(ps, p) > Depth(ts, s) then
      match ReadStruct(fuel, v2, ps, Base(ps, p).value, ts, s, data, pos)
      case None => None
      case Some((effects, next)) =>
        match SkipFields(fuel, v2, ps, ps[p].fields, data, next)
        case None => None
        case Some(end) => Some((effects, end))
    else
      match if Base(ps, p).Some? && Base(ts, s).Some?
            then ReadStruct(fuel, v2, ps, Base(ps, p).value, ts, Base(ts, s).value, data, pos)
            else Some(([], pos))
      case None => None
      case Some((effects, mid)) =>
        match ReadFields(fuel, v2, ps, ps[p].fields, ts, s, ts[s].fields, data, mid)
        case None => None
        case Some((more, end)) => Some((effects + more, end))
  }

  /** The payload schema's fields in turn: read where the target has the identifier, skipped where
      it has not. */
  function ReadFields(fuel: nat, v2: bool, ps: seq<StructDef>, fields: Fields, ts: seq<StructDef>, s: nat,
                      targets: Fields,
                      data: seq<byte>, pos: nat): Option<(seq<Effect>, nat)>
    decreases fuel, 1, fields, 0, 0
  {
    match fields
    case NoFields => Some(([], pos))
    case FieldDef(id, _, pt, rest) =>
      match ReadField(fuel, v2, ps, id, pt, ts, s, Lookup(targets, id), data, pos)
      case None => None
      case Some((effects, next)) =>
        match ReadFields(fuel, v2, ps, rest, ts, s, targets, data, next)
        case None => None
        case Some((more, end)) => Some((effects + more, end))
  }

  function ReadField(fuel: nat, v2: bool, ps: seq<StructDef>, id: nat, pt: FieldType, ts: seq<StructDef>, s: nat,
                     target: Option<FieldType>, data: seq<byte>, pos: nat): Option<(seq<Effect>, nat)>
    decreases fuel, 0, pt, 2, 0
  {
    match target
    case None =>
      (match Skip(fuel, v2, ps, pt, data, pos)
       case None => None
       case Some(next) => Some(([], next)))
    case Some(ft) =>
      match if Fits(pt, ft) then Read(fuel, v2, ps, pt, ts, ft, data, pos) else None
      case None => None
      case Some((effects, next)) => Some(([Assign(s, id)] + effects, next))
  }

  /** A field is read only into one of its own kind, and a container into one of the same type. */
  lemma FieldKinds(fuel: nat, v2: bool, ps: seq<StructDef>, id: nat, pt: FieldType, ts: seq<StructDef>, s: nat,
                   ft: FieldType, data: seq<byte>, pos: nat)
    requires ReadField(fuel, v2, ps, id, pt, ts, s, Some(ft), data, pos).Some?
    ensures match (pt, ft)
            case (Scalar(_), Scalar(_)) => true
            case (StructOf(_), StructOf(_)) => true
            case (ContainerOf(t, _), ContainerOf(t', _)) => t == t'
            case (MapOf(_, _), MapOf(_, _)) => true
            case _ => false
  {
  }

  // ------------------------------------------------------------------ agreement

  predicate Sorted(fields: Fields) {
    match fields
    case NoFields => true
    case FieldDef(id, _, _, rest) => (rest.FieldDef? ==> id < rest.id) && Sorted(rest)
  }

  /** Fields in ascending order of identifier, as in any schema. */
  predicate Regular(schema: seq<StructDef>) {
    forall s :: 0 <= s < |schema| ==> Sorted(schema[s].fields)
  }

  lemma {:induction false} SortedLookup(fields: Fields, id: nat)
    requires Sorted(fields) && (fields.FieldDef? ==> id < fields.id)
    ensures Lookup(fields, id) == None
  {
    if fields.FieldDef? {
      SortedLookup(fields.rest, id);
    }
  }

  function Bases(body: Body): nat {
    match body
    case Stop => 0
    case StopBase(next) => 1 + Bases(next)
    case Field(_, _, next) => Bases(next)
  }

  lemma {:induction false} LevelBases(schema: seq<StructDef>, fields: Fields, body: Body)
    requires Level(schema, fields, body).Some?
    ensures Bases(body) == Bases(Level(schema, fields, body).value)
  {
    if fields.FieldDef? {
      LevelBases(schema, fields.rest, body.next);
    }
  }

  lemma {:induction false} LevelsBases(schema: seq<StructDef>, s: nat, body: Body)
    requires s < |schema| && Levels(schema, s, body).Some?
    ensures Bases(body) == Depth(schema, s) - 1 + Bases(Levels(schema, s, body).value)
  {
    match Base(schema, s)
    case None => LevelBases(schema, schema[s].fields, body);
    case Some(base) =>
      LevelsBases(schema, base, body);
      LevelBases(schema, schema[s].fields, Levels(schema, base, body).value.next);
  }

  lemma {:induction false} LevelEndBases(body: Body)
    requires LevelEnd(body, true).Some?
    ensures Bases(body) == 1 + Bases(LevelEnd(body, true).value)
  {
    if body.Field? {
      LevelEndBases(body.next);
    }
  }

  lemma {:induction false} DecodeLevelBases(schema: seq<StructDef>, s: nat, fields: Fields, body: Body)
    requires DecodeLevel(schema, s, fields, body, true).Some?
    ensures Bases(body) == 1 + Bases(DecodeLevel(schema, s, fields, body, true).value.1)
    decreases SizeOfBody(body), fields
  {
    hide Decode;
    match fields
    case NoFields => LevelEndBases(body);
    case FieldDef(id, _, _, more) =>
      if !body.Field? || body.id > id {
        DecodeLevelBases(schema, s, more, body);
      } else if body.id == id || HeaderId(body.next) > id {
        DecodeLevelBases(schema, s, more, body.next);
      } else {
        DecodeLevelBases(schema, s, fields, body.next);
      }
  }

  lemma {:induction false} DecodeBases(schema: seq<StructDef>, s: nat, body: Body, isBase: bool)
    requires s < |schema| && DecodeStruct(schema, s, body, isBase).Some?
    ensures isBase ==> Bases(body) == Depth(schema, s) + Bases(DecodeStruct(schema, s, body, isBase).value.1)
    ensures Bases(body) >= Depth(schema, s) - 1
  {
    match Base(schema, s)
    case None =>
      if isBase {
        DecodeLevelBases(schema, s, schema[s].fields, body);
      }
    case Some(base) =>
      DecodeBases(schema, base, body, true);
      if isBase {
        DecodeLevelBases(schema, s, schema[s].fields, DecodeStruct(schema, base, body, true).value.1);
      }
  }

  /** At the end of a level that can be read the fields left over are optional. */
  lemma {:induction false} NothingLeft(schema: seq<StructDef>, s: nat, fields: Fields, body: Body, isBase: bool)
    requires !body.Field? && DecodeLevel(schema, s, fields, body, isBase).Some?
    ensures LevelEnd(body, isBase).Some?
    ensures DecodeLevel(schema, s, fields, body, isBase) == Some(([], LevelEnd(body, isBase).value))
  {
    if fields.FieldDef? {
      NothingLeft(schema, s, fields.rest, body, isBase);
      assert forall e: seq<Effect> :: [] + e == e;
    }
  }

  /** The rest `tail` of the target's fields is all that matters to the payload fields from the
      first one of `fields` on. */
  ghost predicate Suffices(fields: Fields, targets: Fields, tail: Fields) {
    fields.FieldDef? ==> forall id: nat :: id >= fields.id ==> Lookup(targets, id) == Lookup(tail, id)
  }

  lemma {:induction false} ReadAgrees(fuel: nat, v2: bool, ps: seq<StructDef>, pt: FieldType, ts: seq<StructDef>,
                                      ft: FieldType,
                                      v: Value, data: seq<byte>, pos: nat)
    requires Regular(ps) && Regular(ts)
    requires Conforms(ps, pt, v) && Decode(ts, ft, v).Some? && fuel >= SizeOf(v)
    requires At(data, pos, EncodeSimple(v2, v))
    ensures Read(fuel, v2, ps, pt, ts, ft, data, pos) == Some((Decode(ts, ft, v).value, pos + |EncodeSimple(v2, v)|))
    decreases SizeOf(v), 0, 2
  {
    match pt
    case Scalar(t) => ScalarRoundTrip(v2, v, data, pos);
    case StructOf(p) => ReadNested(fuel, v2, ps, pt, ts, ft, v, data, pos);
    case ContainerOf(_, _) => ReadContainer(fuel, v2, ps, pt, ts, ft, v, data, pos);
    case MapOf(_, _) => ReadMap(fuel, v2, ps, pt, ts, ft, v, data, pos);
  }

  lemma {:induction false} ReadNested(fuel: nat, v2: bool, ps: seq<StructDef>, pt: FieldType, ts: seq<StructDef>,
                                      ft: FieldType,
                                      v: Value, data: seq<byte>, pos: nat)
    requires Regular(ps) && Regular(ts) && pt.StructOf?
    requires Conforms(ps, pt, v) && Decode(ts, ft, v).Some? && fuel >= SizeOf(v)
    requires At(data, pos, EncodeSimple(v2, v))
    ensures Read(fuel, v2, ps, pt, ts, ft, data, pos) == Some((Decode(ts, ft, v).value, pos + |EncodeSimple(v2, v)|))
    decreases SizeOf(v), 0, 1
  {
    hide At, ReadStruct, Levels, DecodeStruct, EncodeSimpleBody;
    assert |EncodeSimpleBody(v2, Stop)| == 0 by { StopIsFree(v2); }
    LevelsBases(ps, pt.struct, v.body);
    DecodeBases(ts, ft.struct, v.body, false);
    ReadStructAgrees(fuel - 1, v2, ps, pt.struct, ts, ft.struct, v.body, false, data, pos);
  }

  lemma StopIsFree(v2: bool)
    ensures EncodeSimpleBody(v2, Stop) == []
  {
  }

  lemma {:induction false} ReadContainer(fuel: nat, v2: bool, ps: seq<StructDef>, pt: FieldType, ts: seq<StructDef>,
                                         ft: FieldType,
                                         v: Value, data: seq<byte>, pos: nat)
    requires Regular(ps) && Regular(ts) && pt.ContainerOf?
    requires Conforms(ps, pt, v) && Decode(ts, ft, v).Some? && fuel >= SizeOf(v)
    requires At(data, pos, EncodeSimple(v2, v))
    ensures Read(fuel, v2, ps, pt, ts, ft, data, pos) == Some((Decode(ts, ft, v).value, pos + |EncodeSimple(v2, v)|))
    decreases SizeOf(v), 0, 1
  {
    hide At, EncodeCount, ReadCount, ReadItems, DecodeItems, EncodeSimpleItems, ConformItems;
    var count := EncodeCount(v2, Count(v.items));
    AtConcat(data, pos, count, EncodeSimpleItems(v2, v.items));
    CountRoundTrip(v2, Count(v.items), data, pos);
    ReadItemsAgree(fuel, v2, ps, pt, ts, ft.elem, v.items, data, pos + |count|);
  }

  lemma {:induction false} ReadMap(fuel: nat, v2: bool, ps: seq<StructDef>, pt: FieldType, ts: seq<StructDef>,
                                   ft: FieldType,
                                   v: Value, data: seq<byte>, pos: nat)
    requires Regular(ps) && Regular(ts) && pt.MapOf?
    requires Conforms(ps, pt, v) && Decode(ts, ft, v).Some? && fuel >= SizeOf(v)
    requires At(data, pos, EncodeSimple(v2, v))
    ensures Read(fuel, v2, ps, pt, ts, ft, data, pos) == Some((Decode(ts, ft, v).value, pos + |EncodeSimple(v2, v)|))
    decreases SizeOf(v), 0, 1
  {
    hide At, EncodeCount, ReadCount, ReadEntries, DecodeEntries, EncodeSimpleEntries, ConformEntries;
    var count := EncodeCount(v2, CountEntries(v.entries));
    AtConcat(data, pos, count, EncodeSimpleEntries(v2, v.entries));
    CountRoundTrip(v2, CountEntries(v.entries), data, pos);
    ReadEntriesAgree(fuel, v2, ps, pt, ts, ft, v.entries, data, pos + |count|);
  }

  /** `v` is a value of the payload type that the tagged parser reads into the target type. */
  ghost predicate Sliceable(ps: seq<StructDef>, pt: FieldType, ts: seq<StructDef>, ft: FieldType, v: Value) {
    && Regular(ps) && Regular(ts)
    && Conforms(ps, pt, v) && Decode(ts, ft, v).Some?
  }

  lemma {:induction false} ReadOneAgrees(fuel: nat, v2: bool, ps: seq<StructDef>, pt: FieldType, ts: seq<StructDef>,
                                         ft: FieldType,
                                         v: Value, rest: seq<byte>, data: seq<byte>, pos: nat)
    requires Sliceable(ps, pt, ts, ft, v) && fuel >= SizeOf(v) && At(data, pos, EncodeSimple(v2, v) + rest)
    ensures Read(fuel, v2, ps, pt, ts, ft, data, pos) == Some((Decode(ts, ft, v).value, pos + |EncodeSimple(v2, v)|))
    ensures At(data, pos + |EncodeSimple(v2, v)|, rest)
    decreases SizeOf(v), 0, 3
  {
    hide At, EncodeSimple, Regular, Conforms, Decode;
    AtConcat(data, pos, EncodeSimple(v2, v), rest);
    ReadAgrees(fuel, v2, ps, pt, ts, ft, v, data, pos);
  }

  lemma {:induction false} ReadItemsAgree(fuel: nat, v2: bool, ps: seq<StructDef>, pt: FieldType, ts: seq<StructDef>,
                                          elem: FieldType,
                                          items: Items, data: seq<byte>, pos: nat)
    requires Regular(ps) && Regular(ts) && pt.ContainerOf?
    requires ConformItems(ps, pt.elem, items) && DecodeItems(ts, elem, items).Some? && fuel >= SizeOfItems(items)
    requires At(data, pos, EncodeSimpleItems(v2, items))
    ensures ReadItems(fuel, v2, ps, pt, ts, elem, Count(items), data, pos)
         == Some((DecodeItems(ts, elem, items).value, pos + |EncodeSimpleItems(v2, items)|))
    decreases SizeOfItems(items), 0, 0
  {
    hide At, EncodeSimple, Read, Decode, Conforms, Regular;
    match items
    case NoItems =>
    case Item(head, tail) =>
      var others, decoded := EncodeSimpleItems(v2, tail), DecodeItems(ts, elem, tail);
      assert EncodeSimpleItems(v2, items) == EncodeSimple(v2, head) + others;
      assert DecodeItems(ts, elem, items) == Some(Decode(ts, elem, head).value + decoded.value);
      assert Sliceable(ps, pt.elem, ts, elem, head);
      hide EncodeSimpleItems, Sliceable, DecodeItems;
      var next := pos + |EncodeSimple(v2, head)|;
      ReadOneAgrees(fuel, v2, ps, pt.elem, ts, elem, head, others, data, pos);
      ReadItemsAgree(fuel, v2, ps, pt, ts, elem, tail, data, next);
  }

  lemma {:induction false} ReadEntriesAgree(fuel: nat, v2: bool, ps: seq<StructDef>, pt: FieldType, ts: seq<StructDef>,
                                            ft: FieldType,
                                            entries: Entries, data: seq<byte>, pos: nat)
    requires Regular(ps) && Regular(ts) && pt.MapOf? && ft.MapOf?
    requires ConformEntries(ps, pt.key, pt.elem, entries) && DecodeEntries(ts, ft.key, ft.elem, entries).Some?
    requires fuel >= SizeOfEntries(entries) && At(data, pos, EncodeSimpleEntries(v2, entries))
    ensures ReadEntries(fuel, v2, ps, pt, ts, ft, CountEntries(entries), data, pos)
         == Some((DecodeEntries(ts, ft.key, ft.elem, entries).value, pos + |EncodeSimpleEntries(v2, entries)|))
    decreases SizeOfEntries(entries), 0, 0
  {
    hide At, EncodeSimple, Read, Decode, Conforms, Regular;
    match entries
    case NoEntries =>
    case Entry(k, v, rest) =>
      var others, decoded := EncodeSimpleEntries(v2, rest), DecodeEntries(ts, ft.key, ft.elem, rest);
      assert EncodeSimpleEntries(v2, entries) == EncodeSimple(v2, k) + (EncodeSimple(v2, v) + others);
      assert DecodeEntries(ts, ft.key, ft.elem, entries)
          == Some(Decode(ts, ft.key, k).value + (Decode(ts, ft.elem, v).value + decoded.value));
      assert Sliceable(ps, pt.key, ts, ft.key, k) && Sliceable(ps, pt.elem, ts, ft.elem, v);
      hide EncodeSimpleEntries, Sliceable, ReadEntries, DecodeEntries;
      var mid := pos + |EncodeSimple(v2, k)|;
      var next := mid + |EncodeSimple(v2, v)|;
      ReadOneAgrees(fuel, v2, ps, pt.key, ts, ft.key, k, EncodeSimple(v2, v) + others, data, pos);
      ReadOneAgrees(fuel, v2, ps, pt.elem, ts, ft.elem, v, others, data, mid);
      ReadEntryStep(fuel, v2, ps, pt, ts, ft, CountEntries(entries), data, pos, mid, next,
                    Decode(ts, ft.key, k).value, Decode(ts, ft.elem, v).value);
      ReadEntriesAgree(fuel, v2, ps, pt, ts, ft, rest, data, next);
  }

  lemma ReadEntryStep(fuel: nat, v2: bool, ps: seq<StructDef>, pt: FieldType, ts: seq<StructDef>, ft: FieldType,
                      count: nat, data: seq<byte>, pos: nat, mid: nat, next: nat, a: seq<Effect>, b: seq<Effect>)
    requires pt.MapOf? && ft.MapOf? && count > 0
    requires Read(fuel, v2, ps, pt.key, ts, ft.key, data, pos) == Some((a, mid))
    requires Read(fuel, v2, ps, pt.elem, ts, ft.elem, data, mid) == Some((b, next))
    ensures ReadEntries(fuel, v2, ps, pt, ts, ft, count, data, pos)
         == match ReadEntries(fuel, v2, ps, pt, ts, ft, count - 1, data, next)
            case None => None
            case Some((c, end)) => Some((a + (b + c), end))
  {
    hide Read;
  }

  /** `r` has had `effects` and has gone from the encoding of `body` to that of `rest`. */
  ghost predicate Arrives(v2: bool, body: Body, rest: Body, data: seq<byte>, pos: nat,
                          r: Option<(seq<Effect>, nat)>, effects: seq<Effect>) {
    r.Some? && r.value.0 == effects && Passes(v2, body, rest, data, pos, Some(r.value.1))
  }

  lemma ArrivesField(fuel: nat, v2: bool, ps: seq<StructDef>, fields: Fields, ts: seq<StructDef>, s: nat,
                     targets: Fields,
                     body: Body, rest: Body, data: seq<byte>, pos: nat, one: seq<Effect>, more: seq<Effect>)
    requires fields.FieldDef? && body.Field? && At(data, pos, EncodeSimpleBody(v2, body))
    requires ReadField(fuel, v2, ps, fields.id, fields.ft, ts, s, Lookup(targets, fields.id), data, pos)
          == Some((one, pos + |EncodeSimple(v2, body.value)|))
    requires Arrives(v2, body.next, rest, data, pos + |EncodeSimple(v2, body.value)|,
                     ReadFields(fuel, v2, ps, fields.rest, ts, s, targets, data,
                                pos + |EncodeSimple(v2, body.value)|), more)
    ensures Arrives(v2, body, rest, data, pos, ReadFields(fuel, v2, ps, fields, ts, s, targets, data, pos), one + more)
  {
    hide At, Passes, EncodeSimple, EncodeSimpleBody, ReadField, Lookup;
    var next := pos + |EncodeSimple(v2, body.value)|;
    var r := ReadFields(fuel, v2, ps, fields.rest, ts, s, targets, data, next);
    PassesField(v2, body, rest, data, pos, Some(r.value.1));
  }

  lemma {:induction false} ReadFieldsAgree(fuel: nat, v2: bool, ps: seq<StructDef>, fields: Fields, ts: seq<StructDef>,
                                           s: nat,
                                           targets: Fields, tail: Fields, body: Body, isBase: bool, data: seq<byte>,
                                           pos: nat)
    requires Regular(ps) && Regular(ts)
    requires Sorted(fields) && Sorted(tail) && Suffices(fields, targets, tail)
    requires Level(ps, fields, body).Some? && DecodeLevel(ts, s, tail, body, isBase).Some?
    requires fuel >= SizeOfBody(body) && At(data, pos, EncodeSimpleBody(v2, body))
    ensures Arrives(v2, body, Level(ps, fields, body).value, data, pos,
                    ReadFields(fuel, v2, ps, fields, ts, s, targets, data, pos),
                    DecodeLevel(ts, s, tail, body, isBase).value.0)
    ensures LevelEnd(Level(ps, fields, body).value, isBase) == Some(DecodeLevel(ts, s, tail, body, isBase).value.1)
    decreases SizeOfBody(body), 1, tail
  {
    hide Regular, At, EncodeSimple, EncodeSimpleBody, Passes, Read, Skip, Decode, Conforms;
    assert forall e: seq<Effect> :: [] + e == e;
    if fields.NoFields? {
      NothingLeft(ts, s, tail, body, isBase);
      PassesNothing(v2, body, data, pos);
    } else if tail.FieldDef? && body.id > tail.id {
      PassedTarget(fields, targets, tail);
      ReadFieldsAgree(fuel, v2, ps, fields, ts, s, targets, tail.rest, body, isBase, data, pos);
    } else {
      ReadFieldsStep(fuel, v2, ps, fields, ts, s, targets, tail, body, isBase, data, pos);
    }
  }

  lemma PassedTarget(fields: Fields, targets: Fields, tail: Fields)
    requires Suffices(fields, targets, tail) && fields.FieldDef? && tail.FieldDef? && fields.id > tail.id
    ensures Suffices(fields, targets, tail.rest)
  {
  }

  /** What is left of the target's fields after payload field `body`, the next in the schema. */
  function TailAfter(tail: Fields, body: Body): Fields
    requires body.Field?
  {
    if tail.NoFields? || (body.id < tail.id && HeaderId(body.next) <= tail.id) then tail else tail.rest
  }

  /** Payload field `body` is the next of the payload's schema and not beyond the target's next. */
  lemma {:induction false} ReadFieldsStep(fuel: nat, v2: bool, ps: seq<StructDef>, fields: Fields, ts: seq<StructDef>,
                                          s: nat,
                                          targets: Fields, tail: Fields, body: Body, isBase: bool, data: seq<byte>,
                                          pos: nat)
    requires Regular(ps) && Regular(ts)
    requires Sorted(fields) && Sorted(tail) && Suffices(fields, targets, tail)
    requires Level(ps, fields, body).Some? && DecodeLevel(ts, s, tail, body, isBase).Some?
    requires fuel >= SizeOfBody(body) && At(data, pos, EncodeSimpleBody(v2, body))
    requires fields.FieldDef? && (tail.FieldDef? ==> body.id <= tail.id)
    ensures Arrives(v2, body, Level(ps, fields, body).value, data, pos,
                    ReadFields(fuel, v2, ps, fields, ts, s, targets, data, pos),
                    DecodeLevel(ts, s, tail, body, isBase).value.0)
    ensures LevelEnd(Level(ps, fields, body).value, isBase) == Some(DecodeLevel(ts, s, tail, body, isBase).value.1)
    decreases SizeOfBody(body), 0, tail
  {
    hide Regular, At, EncodeSimple, EncodeSimpleBody, Passes, Read, Skip, Decode, Conforms, ReadFields, Arrives;
    var v, more := body.value, TailAfter(tail, body);
    var next := pos + |EncodeSimple(v2, v)|;
    var one := if tail.FieldDef? && body.id == tail.id then [Assign(s, body.id)] + Decode(ts, tail.ft, v).value else [];
    PassesField(v2, body, Level(ps, fields, body).value, data, pos, None);
    SufficesNext(ps, fields, targets, tail, body);
    ReadFieldsAgree(fuel, v2, ps, fields.rest, ts, s, targets, more, body.next, isBase, data, next);
    ReadOne(fuel, v2, ps, fields, ts, s, targets, tail, v, data, pos);
    assert DecodeLevel(ts, s, tail, body, isBase).value.0 == one + DecodeLevel(ts, s, more, body.next, isBase).value.0;
    ArrivesField(fuel, v2, ps, fields, ts, s, targets, body, Level(ps, fields, body).value, data, pos, one,
                 DecodeLevel(ts, s, more, body.next, isBase).value.0);
  }

  lemma SufficesNext(ps: seq<StructDef>, fields: Fields, targets: Fields, tail: Fields, body: Body)
    requires fields.FieldDef? && Level(ps, fields, body).Some?
    requires Sorted(fields) && Sorted(tail) && Suffices(fields, targets, tail)
    requires (tail.FieldDef? ==> body.id <= tail.id)
    ensures Suffices(fields.rest, targets, TailAfter(tail, body))
  {
    hide Conforms;
  }

  lemma DecodedFits(ps: seq<StructDef>, pt: FieldType, ts: seq<StructDef>, ft: FieldType, v: Value)
    requires Conforms(ps, pt, v) && Decode(ts, ft, v).Some?
    ensures Fits(pt, ft)
  {
  }

  lemma {:induction false} ReadOne(fuel: nat, v2: bool, ps: seq<StructDef>, fields: Fields, ts: seq<StructDef>, s: nat,
                                   targets: Fields, tail: Fields, v: Value, data: seq<byte>, pos: nat)
    requires Regular(ps) && Regular(ts)
    requires fields.FieldDef? && Sorted(tail) && Suffices(fields, targets, tail)
    requires tail.FieldDef? ==> fields.id <= tail.id
    requires Conforms(ps, fields.ft, v) && fuel >= SizeOf(v) && At(data, pos, EncodeSimple(v2, v))
    requires tail.FieldDef? && fields.id == tail.id ==> Decode(ts, tail.ft, v).Some?
    ensures ReadField(fuel, v2, ps, fields.id, fields.ft, ts, s, Lookup(targets, fields.id), data, pos)
         == Some((if tail.FieldDef? && fields.id == tail.id then [Assign(s, fields.id)] + Decode(ts, tail.ft, v).value
                   else [],
                  pos + |EncodeSimple(v2, v)|))
    decreases SizeOf(v), 1, 0
  {
    hide At, EncodeSimple, Read, Skip, Decode, Conforms;
    assert Lookup(targets, fields.id) == Lookup(tail, fields.id);
    if tail.FieldDef? && fields.id == tail.id {
      DecodedFits(ps, fields.ft, ts, tail.ft, v);
      ReadAgrees(fuel, v2, ps, fields.ft, ts, tail.ft, v, data, pos);
    } else {
      SortedLookup(tail, fields.id);
      SkipEnds(fuel, v2, ps, fields.ft, v, data, pos);
    }
  }

  lemma {:induction false} ReadStructAgrees(fuel: nat, v2: bool, ps: seq<StructDef>, p: nat, ts: seq<StructDef>, s: nat,
                                            body: Body, isBase: bool, data: seq<byte>, pos: nat)
    requires Regular(ps) && Regular(ts) && p < |ps| && s < |ts|
    requires Depth(ps, p) >= Depth(ts, s) && (isBase ==> Depth(ps, p) == Depth(ts, s))
    requires Levels(ps, p, body).Some? && DecodeStruct(ts, s, body, isBase).Some?
    requires fuel >= SizeOfBody(body) && At(data, pos, EncodeSimpleBody(v2, body))
    ensures Arrives(v2, body, Levels(ps, p, body).value, data, pos, ReadStruct(fuel, v2, ps, p, ts, s, data, pos),
                    DecodeStruct(ts, s, body, isBase).value.0)
    ensures isBase ==> Levels(ps, p, body) == Some(StopBase(DecodeStruct(ts, s, body, isBase).value.1))
    decreases SizeOfBody(body), 2, p, 1
  {
    if Depth(ps, p) > Depth(ts, s) {
      ReadDeeper(fuel, v2, ps, p, ts, s, body, data, pos);
    } else if Base(ps, p) == None {
      ReadRoot(fuel, v2, ps, p, ts, s, body, isBase, data, pos);
    } else {
      ReadAligned(fuel, v2, ps, p, ts, s, body, isBase, data, pos);
    }
  }

  /** The payload has levels beyond the target's. */
  lemma {:induction false} ReadDeeper(fuel: nat, v2: bool, ps: seq<StructDef>, p: nat, ts: seq<StructDef>, s: nat,
                                      body: Body, data: seq<byte>, pos: nat)
    requires Regular(ps) && Regular(ts) && p < |ps| && s < |ts| && Depth(ps, p) > Depth(ts, s)
    requires Levels(ps, p, body).Some? && DecodeStruct(ts, s, body, false).Some?
    requires fuel >= SizeOfBody(body) && At(data, pos, EncodeSimpleBody(v2, body))
    ensures Arrives(v2, body, Levels(ps, p, body).value, data, pos, ReadStruct(fuel, v2, ps, p, ts, s, data, pos),
                    DecodeStruct(ts, s, body, false).value.0)
    decreases SizeOfBody(body), 2, p, 0
  {
    var base := Base(ps, p).value;
    var next := Levels(ps, base, body).value.next;
    var mid := ReadStruct(fuel, v2, ps, base, ts, s, data, pos);
    hide At, EncodeSimpleBody, DecodeStruct, Level, SkipFields, Regular;
    ReadStructAgrees(fuel, v2, ps, base, ts, s, body, false, data, pos);
    PassesBase(v2, body, next, Level(ps, ps[p].fields, next).value, data, pos, Some(mid.value.1),
               SkipFields(fuel, v2, ps, ps[p].fields, data, mid.value.1));
    SkipFieldsEnd(fuel, v2, ps, ps[p].fields, next, data, mid.value.1);
  }

  lemma SufficesAll(fields: Fields, targets: Fields)
    ensures Suffices(fields, targets, targets)
  {
  }

  /** Both hierarchies have one level left. */
  lemma {:induction false} ReadRoot(fuel: nat, v2: bool, ps: seq<StructDef>, p: nat, ts: seq<StructDef>, s: nat,
                                    body: Body, isBase: bool, data: seq<byte>, pos: nat)
    requires Regular(ps) && Regular(ts) && p < |ps| && s < |ts|
    requires Depth(ps, p) == Depth(ts, s) && Base(ps, p) == None
    requires Levels(ps, p, body).Some? && DecodeStruct(ts, s, body, isBase).Some?
    requires fuel >= SizeOfBody(body) && At(data, pos, EncodeSimpleBody(v2, body))
    ensures Arrives(v2, body, Levels(ps, p, body).value, data, pos, ReadStruct(fuel, v2, ps, p, ts, s, data, pos),
                    DecodeStruct(ts, s, body, isBase).value.0)
    ensures isBase ==> Levels(ps, p, body) == Some(StopBase(DecodeStruct(ts, s, body, isBase).value.1))
    decreases SizeOfBody(body), 2, p, 0
  {
    SufficesAll(ps[p].fields, ts[s].fields);
    assert Base(ts, s) == None;
    hide At, EncodeSimpleBody, Level, DecodeLevel, Sorted, ReadFields, Passes;
    ReadFieldsAgree(fuel, v2, ps, ps[p].fields, ts, s, ts[s].fields, ts[s].fields, body, isBase, data, pos);
    assert forall e: seq<Effect> :: [] + e == e;
    EndOfBase(Level(ps, ps[p].fields, body).value);
  }

  lemma EndOfBase(body: Body)
    requires !body.Field?
    ensures LevelEnd(body, true) == if body.StopBase? then Some(body.next) else None
  {
  }

  /** Both hierarchies have equally many levels, more than one. */
  lemma {:induction false} ReadAligned(fuel: nat, v2: bool, ps: seq<StructDef>, p: nat, ts: seq<StructDef>, s: nat,
                                       body: Body, isBase: bool, data: seq<byte>, pos: nat)
    requires Regular(ps) && Regular(ts) && p < |ps| && s < |ts|
    requires Depth(ps, p) == Depth(ts, s) && Base(ps, p).Some?
    requires Levels(ps, p, body).Some? && DecodeStruct(ts, s, body, isBase).Some?
    requires fuel >= SizeOfBody(body) && At(data, pos, EncodeSimpleBody(v2, body))
    ensures Arrives(v2, body, Levels(ps, p, body).value, data, pos, ReadStruct(fuel, v2, ps, p, ts, s, data, pos),
                    DecodeStruct(ts, s, body, isBase).value.0)
    ensures isBase ==> Levels(ps, p, body) == Some(StopBase(DecodeStruct(ts, s, body, isBase).value.1))
    decreases SizeOfBody(body), 2, p, 0
  {
    SufficesAll(ps[p].fields, ts[s].fields);
    var pb, sb := Base(ps, p).value, Base(ts, s).value;
    var next := Levels(ps, pb, body).value.next;
    var mid := ReadStruct(fuel, v2, ps, pb, ts, sb, data, pos);
    hide At, EncodeSimpleBody, Level, DecodeLevel, Sorted, ReadFields, Passes;
    ReadStructAgrees(fuel, v2, ps, pb, ts, sb, body, true, data, pos);
    var rest := Level(ps, ps[p].fields, next).value;
    var r := ReadFields(fuel, v2, ps, ps[p].fields, ts, s, ts[s].fields, data, mid.value.1);
    PassesBase(v2, body, next, rest, data, pos, Some(mid.value.1), if r.Some? then Some(r.value.1) else None);
    ReadFieldsAgree(fuel, v2, ps, ps[p].fields, ts, s, ts[s].fields, ts[s].fields, next, isBase, data, mid.value.1);
    EndOfBase(rest);
  }

  // ------------------------------------------------------- the root-most levels

  /** The first `d` levels of a struct as a struct of their own. */
  function Cut(body: Body, d: nat): Body
    requires d >= 1
  {
    match body
    case Stop => Stop
    case StopBase(next) => if d == 1 then Stop else StopBase(Cut(next, d - 1))
    case Field(id, v, next) => Field(id, v, Cut(next, d))
  }

  lemma {:induction false} CutSize(body: Body, d: nat)
    requires d >= 1
    ensures SizeOfBody(Cut(body, d)) <= SizeOfBody(body) && HeaderId(Cut(body, d)) == HeaderId(body)
  {
    match body
    case Stop =>
    case StopBase(next) => if d > 1 { CutSize(next, d - 1); }
    case Field(_, _, next) => CutSize(next, d);
  }

  function CutRest(r: Option<(seq<Effect>, Body)>, d: nat): Option<(seq<Effect>, Body)>
    requires d >= 1
  {
    match r
    case None => None
    case Some((effects, rest)) => Some((effects, Cut(rest, d)))
  }

  lemma {:induction false} CutEnd(body: Body, d: nat)
    requires d >= 1
    ensures d > 1 ==>
              LevelEnd(Cut(body, d), true)
              == match LevelEnd(body, true) case None => None case Some(rest) => Some(Cut(rest, d - 1))
    ensures d == 1 ==> LevelEnd(Cut(body, d), false) == LevelEnd(body, false) == Some(Stop)
    decreases body
  {
    match body
    case Stop =>
    case StopBase(next) => if d == 1 { CutEnd(next, 1); }
    case Field(_, _, next) => CutEnd(next, d);
  }

  /** A level of a base that is not the last level kept. */
  lemma {:induction false} CutLevel(schema: seq<StructDef>, s: nat, fields: Fields, body: Body, d: nat, isBase: bool)
    requires d >= 1 && isBase == (d > 1)
    ensures DecodeLevel(schema, s, fields, Cut(body, d), isBase)
         == if isBase then CutRest(DecodeLevel(schema, s, fields, body, true), d - 1)
            else DecodeLevel(schema, s, fields, body, false)
    decreases SizeOfBody(body), fields
  {
    hide Decode;
    match fields
    case NoFields => CutEnd(body, d);
    case FieldDef(id, _, _, more) =>
      if !body.Field? || body.id > id {
        CutLevel(schema, s, more, body, d, isBase);
      } else {
        CutSize(body.next, d);
        if body.id == id || HeaderId(body.next) > id {
          CutLevel(schema, s, more, body.next, d, isBase);
        } else {
          CutLevel(schema, s, fields, body.next, d, isBase);
        }
      }
  }

  lemma {:induction false} CutBase(schema: seq<StructDef>, s: nat, body: Body, d: nat)
    requires s < |schema| && d > Depth(schema, s)
    ensures DecodeStruct(schema, s, Cut(body, d), true)
         == CutRest(DecodeStruct(schema, s, body, true), d - Depth(schema, s))
    decreases s
  {
    hide DecodeLevel;
    match Base(schema, s)
    case None => CutLevel(schema, s, schema[s].fields, body, d, true);
    case Some(base) =>
      CutBase(schema, base, body, d);
      var r := DecodeStruct(schema, base, body, true);
      if r.Some? {
        CutLevel(schema, s, schema[s].fields, r.value.1, d - Depth(schema, base), true);
      }
  }

  /** The object read depends on the root-most levels of the payload only, as many as the target
      has: cutting the others off first makes no difference. */
  lemma RootMost(schema: seq<StructDef>, s: nat, body: Body)
    requires s < |schema|
    ensures DecodeStruct(schema, s, Cut(body, Depth(schema, s)), false) == DecodeStruct(schema, s, body, false)
  {
    hide DecodeLevel;
    match Base(schema, s)
    case None => CutLevel(schema, s, schema[s].fields, body, 1, false);
    case Some(base) =>
      CutBase(schema, base, body, Depth(schema, s));
      var r := DecodeStruct(schema, base, body, true);
      if r.Some? {
        CutLevel(schema, s, schema[s].fields, r.value.1, 1, false);
      }
  }

  // ------------------------------------------------------- targets that always fit

  /** A value is read into its own type. */
  lemma {:induction false} OwnType(schema: seq<StructDef>, ft: FieldType, v: Value)
    requires Conforms(schema, ft, v)
    ensures Decode(schema, ft, v).Some?
    decreases SizeOf(v), 0, 0
  {
    hide Levels, DecodeStruct, ConformItems, DecodeItems, ConformEntries, DecodeEntries, Valid;
    match ft
    case Scalar(_) =>
    case StructOf(s) => OwnStruct(schema, s, v.body, false);
    case ContainerOf(_, elem) => OwnItems(schema, elem, v.items);
    case MapOf(key, elem) => OwnEntries(schema, key, elem, v.entries);
  }

  lemma {:induction false} OwnItems(schema: seq<StructDef>, elem: FieldType, items: Items)
    requires ConformItems(schema, elem, items)
    ensures DecodeItems(schema, elem, items).Some?
    decreases SizeOfItems(items), 0, 0
  {
    hide Conforms, Decode;
    if items.Item? {
      OwnType(schema, elem, items.head);
      OwnItems(schema, elem, items.tail);
    }
  }

  lemma {:induction false} OwnEntries(schema: seq<StructDef>, key: FieldType, elem: FieldType, entries: Entries)
    requires ConformEntries(schema, key, elem, entries)
    ensures DecodeEntries(schema, key, elem, entries).Some?
    decreases SizeOfEntries(entries), 0, 0
  {
    hide Conforms, Decode;
    if entries.Entry? {
      OwnType(schema, key, entries.key);
      OwnType(schema, elem, entries.value);
      OwnEntries(schema, key, elem, entries.rest);
    }
  }

  lemma {:induction false} OwnStruct(schema: seq<StructDef>, s: nat, body: Body, isBase: bool)
    requires s < |schema| && Levels(schema, s, body).Some?
    requires isBase ==> Levels(schema, s, body).value.StopBase?
    ensures DecodeStruct(schema, s, body, isBase).Some?
    ensures isBase ==> DecodeStruct(schema, s, body, isBase).value.1 == Levels(schema, s, body).value.next
    decreases SizeOfBody(body), 2, s
  {
    hide Level, DecodeLevel;
    match Base(schema, s)
    case None => OwnLevel(schema, s, schema[s].fields, body, isBase);
    case Some(base) =>
      OwnStruct(schema, base, body, true);
      OwnLevel(schema, s, schema[s].fields, Levels(schema, base, body).value.next, isBase);
  }

  lemma {:induction false} OwnLevel(schema: seq<StructDef>, s: nat, fields: Fields, body: Body, isBase: bool)
    requires Level(schema, fields, body).Some? && (isBase ==> Level(schema, fields, body).value.StopBase?)
    ensures DecodeLevel(schema, s, fields, body, isBase).Some?
    ensures isBase ==> DecodeLevel(schema, s, fields, body, isBase).value.1 == Level(schema, fields, body).value.next
    decreases SizeOfBody(body), 1, fields
  {
    hide Conforms, Decode;
    if fields.FieldDef? {
      OwnType(schema, fields.ft, body.value);
      OwnLevel(schema, s, fields.rest, body.next, isBase);
    } else {
      MarkerEnds(body);
    }
  }

  lemma {:induction false} MarkerEnds(body: Body)
    ensures LevelEnd(body, false).Some?
    ensures body.StopBase? ==> LevelEnd(body, true) == Some(body.next)
  {
    match body
    case Stop =>
    case StopBase(next) => MarkerEnds(next);
    case Field(_, _, next) => MarkerEnds(next);
  }

  /** `s` is `p` or a base of it, direct or not. */
  predicate Ancestor(schema: seq<StructDef>, s: nat, p: nat)
    requires s < |schema| && p < |schema|
    decreases p
  {
    s == p || (Base(schema, p).Some? && Ancestor(schema, s, Base(schema, p).value))
  }

  /** A derived struct is read into each of its bases. */
  lemma {:induction false} BaseType(schema: seq<StructDef>, s: nat, p: nat, body: Body)
    requires s < |schema| && p < |schema| && Ancestor(schema, s, p) && Levels(schema, p, body).Some?
    ensures DecodeStruct(schema, s, body, false).Some?
    decreases p
  {
    hide DecodeStruct, Level;
    if s == p {
      OwnStruct(schema, s, body, false);
    } else {
      BaseType(schema, s, Base(schema, p).value, body);
    }
  }

  /** Slicing, without a condition on the payload: any value of a derived type, written in Simple
      Binary, is read into any of its bases, gives what the tagged parser gives for it, and both
      read it to its end; if each nested struct is read by its own schema. */
  lemma Slice(fuel: nat, v2: bool, schema: seq<StructDef>, p: nat, s: nat, v: Value, data: seq<byte>, pos: nat)
    requires Regular(schema) && s < |schema| && p < |schema| && Ancestor(schema, s, p)
    requires Conforms(schema, StructOf(p), v) && fuel >= SizeOf(v) && At(data, pos, EncodeSimple(v2, v))
    ensures Decode(schema, StructOf(s), v).Some?
    ensures Read(fuel, v2, schema, StructOf(p), schema, StructOf(s), data, pos)
         == Some((Decode(schema, StructOf(s), v).value, pos + |EncodeSimple(v2, v)|))
  {
    hide At, Read, DecodeStruct, Levels, EncodeSimple;
    BaseType(schema, s, p, v.body);
    ReadAgrees(fuel, v2, schema, StructOf(p), schema, StructOf(s), v, data, pos);
  }
}
