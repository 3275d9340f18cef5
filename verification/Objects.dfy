/** The object that deserializing makes: what was written comes back, all of it or the levels of the base that
    is read. */
module Objects {
  import opened Bytes
  import opened Wire
  import opened Deserialization
  import opened SimpleBinary
  import opened Slicing
  import opened Levels
  import opened Reader
  import opened TaggedParser
  import Failures

  // ------------------------------------------------------------ from effects to object

  /** `a` with `end` in place of its last marker. */
  function EndWith(a: Body, end: Body): Body {
    match a
    case Stop => end
    case StopBase(next) => StopBase(EndWith(next, end))
    case Field(id, v, next) => Field(id, v, EndWith(next, end))
  }

  /** The object of type `ft` that the first of the effects make, and the other effects. */
  function Rebuild(schema: Schema, ft: FieldType, effects: seq<Effect>): (r: Option<(Value, seq<Effect>)>)
    ensures r.Some? ==> |r.value.1| < |effects|
    decreases |effects|, 0, 0
  {
    if effects == [] then None
    else
      match (ft, effects[0])
      case (Scalar(_), Leaf(v)) => Some((v, effects[1..]))
      case (StructOf(s), Fill(s')) =>
        if s != s' || s >= |schema| then None
        else
          (match RebuildLevels(schema, s, effects[1..])
           case None => None
           case Some((body, rest)) =>
             if rest != [] && rest[0] == Filled(s) then Some((Struct(body), rest[1..])) else None)
      case (ContainerOf(t, elem), Resize(count)) =>
        (match RebuildItems(schema, elem, count, effects[1..])
         case None => None
         case Some((items, rest)) => Some((List(t, BondType(elem), items), rest)))
      case (MapOf(key, elem), Resize(count)) =>
        (match RebuildEntries(schema, key, elem, count, effects[1..])
         case None => None
         case Some((entries, rest)) => Some((Map(BondType(key), BondType(elem), entries), rest)))
      case _ => None
  }

  function RebuildItems(schema: Schema, elem: FieldType, count: nat, effects: seq<Effect>)
    : (r: Option<(Items, seq<Effect>)>)
    ensures r.Some? ==> |r.value.1| <= |effects|
    decreases |effects|, 1, count
  {
    if count == 0 then Some((NoItems, effects))
    else
      match Rebuild(schema, elem, effects)
      case None => None
      case Some((head, mid)) =>
        match RebuildItems(schema, elem, count - 1, mid)
        case None => None
        case Some((tail, rest)) => Some((Item(head, tail), rest))
  }

  function RebuildEntries(schema: Schema, key: FieldType, elem: FieldType, count: nat, effects: seq<Effect>)
    : (r: Option<(Entries, seq<Effect>)>)
    ensures r.Some? ==> |r.value.1| <= |effects|
    decreases |effects|, 1, count
  {
    if count == 0 then Some((NoEntries, effects))
    else
      match Rebuild(schema, key, effects)
      case None => None
      case Some((k, mid)) =>
        match Rebuild(schema, elem, mid)
        case None => None
        case Some((v, after)) =>
          match RebuildEntries(schema, key, elem, count - 1, after)
          case None => None
          case Some((more, rest)) => Some((Entry(k, v, more), rest))
  }

  function RebuildLevels(schema: Schema, s: nat, effects: seq<Effect>): (r: Option<(Body, seq<Effect>)>)
    requires s < |schema|
    ensures r.Some? ==> |r.value.1| <= |effects|
    decreases |effects|, 3, s
  {
    match Base(schema, s)
    case None => RebuildFields(schema, s, schema[s].fields, effects)
    case Some(base) =>
      match RebuildLevels(schema, base, effects)
      case None => None
      case Some((levels, mid)) =>
        match RebuildFields(schema, s, schema[s].fields, mid)
        case None => None
        case Some((level, rest)) => Some((EndWith(levels, StopBase(level)), rest))
  }

  /** The fields of a level that are assigned. */
  function RebuildFields(schema: Schema, s: nat, fields: Fields, effects: seq<Effect>)
    : (r: Option<(Body, seq<Effect>)>)
    ensures r.Some? ==> |r.value.1| <= |effects|
    decreases |effects|, 2, fields
  {
    match fields
    case NoFields => Some((Stop, effects))
    case FieldDef(id, _, ft, more) =>
      if effects == [] || effects[0] != Assign(s, id) then RebuildFields(schema, s, more, effects)
      else
        match Rebuild(schema, ft, effects[1..])
        case None => None
        case Some((v, mid)) =>
          match RebuildFields(schema, s, more, mid)
          case None => None
          case Some((next, rest)) => Some((Field(id, v, next), rest))
  }

  // ----------------------------------------------------------------------- proof

  lemma {:induction false} EndTwice(a: Body, b: Body, end: Body)
    ensures EndWith(EndWith(a, StopBase(b)), end) == EndWith(a, StopBase(EndWith(b, end)))
  {
    if a != Stop {
      EndTwice(a.next, b, end);
    }
  }

  lemma {:induction false} EndStop(a: Body)
    ensures EndWith(a, Stop) == a
  {
    if a != Stop {
      EndStop(a.next);
    }
  }

  /** No effect on `s` or its bases comes first. */
  predicate Past(s: nat, effects: seq<Effect>) {
    effects == [] || !effects[0].Assign? || effects[0].struct > s
  }

  lemma {:induction false} MadeIds(schema: Schema, fields: Fields, body: Body)
    requires Sorted(fields) && fields.FieldDef? && MadeLevel(schema, fields, body).Some? && body.Field?
    ensures body.id >= fields.id
    decreases fields
  {
    if body.id != fields.id && fields.rest.FieldDef? {
      MadeIds(schema, fields.rest, body);
    }
  }

  /** Reading and rebuilding gives back what was written from an object of the type. */
  lemma {:induction false} Restored(schema: Schema, ft: FieldType, v: Value, tail: seq<Effect>)
    requires Regular(schema) && Made(schema, ft, v) && Decode(schema, ft, v).Some?
    ensures Rebuild(schema, ft, Decode(schema, ft, v).value + tail) == Some((v, tail))
    decreases SizeOf(v), 0, 0
  {
    hide Regular, MadeLevels, MadeItems, MadeEntries, DecodeItems, DecodeEntries, DecodeStruct;
    hide RebuildItems, RebuildEntries, RebuildLevels;
    var e := Decode(schema, ft, v).value;
    match ft
    case Scalar(_) => assert (e + tail)[1..] == tail;
    case StructOf(s) =>
      var (effects, _) := DecodeStruct(schema, s, v.body, false).value;
      var after := [Filled(s)] + tail;
      assert (e + tail)[1..] == effects + after && after[1..] == tail;
      var b := LevelsRestored(schema, s, v.body, false, after);
      EndStop(b);
    case ContainerOf(_, elem) =>
      var effects := DecodeItems(schema, elem, v.items).value;
      assert (e + tail)[1..] == effects + tail;
      ItemsRestored(schema, elem, v.items, tail);
    case MapOf(key, elem) =>
      var effects := DecodeEntries(schema, key, elem, v.entries).value;
      assert (e + tail)[1..] == effects + tail;
      EntriesRestored(schema, key, elem, v.entries, tail);
  }

  lemma {:induction false} ItemsRestored(schema: Schema, elem: FieldType, items: Items, tail: seq<Effect>)
    requires Regular(schema) && MadeItems(schema, elem, items) && DecodeItems(schema, elem, items).Some?
    ensures RebuildItems(schema, elem, Count(items), DecodeItems(schema, elem, items).value + tail)
         == Some((items, tail))
    decreases SizeOfItems(items), 0, 0
  {
    hide Regular, Made, Decode, Rebuild;
    if items.Item? {
      var head, more := Decode(schema, elem, items.head).value, DecodeItems(schema, elem, items.tail).value;
      assert head + more + tail == head + (more + tail);
      Restored(schema, elem, items.head, more + tail);
      ItemsRestored(schema, elem, items.tail, tail);
    } else {
      assert [] + tail == tail;
    }
  }

  lemma {:induction false} EntriesRestored(schema: Schema, key: FieldType, elem: FieldType, entries: Entries,
                                           tail: seq<Effect>)
    requires Regular(schema) && MadeEntries(schema, key, elem, entries)
    requires DecodeEntries(schema, key, elem, entries).Some?
    ensures RebuildEntries(schema, key, elem, CountEntries(entries),
                           DecodeEntries(schema, key, elem, entries).value + tail)
         == Some((entries, tail))
    decreases SizeOfEntries(entries), 0, 0
  {
    hide Regular, Made, Decode, Rebuild;
    if entries.Entry? {
      var k, v := Decode(schema, key, entries.key).value, Decode(schema, elem, entries.value).value;
      var more := DecodeEntries(schema, key, elem, entries.rest).value;
      assert k + (v + more) + tail == k + (v + (more + tail));
      Restored(schema, key, entries.key, v + (more + tail));
      Restored(schema, elem, entries.value, more + tail);
      EntriesRestored(schema, key, elem, entries.rest, tail);
    } else {
      assert [] + tail == tail;
    }
  }

  /** Rebuilding the levels of `s` that are read from `body` gives `b`, which is `body` up to what follows. */
  ghost predicate LevelsBack(schema: Schema, s: nat, body: Body, isBase: bool, tail: seq<Effect>, b: Body)
    requires s < |schema| && MadeLevels(schema, s, body).Some? && DecodeStruct(schema, s, body, isBase).Some?
  {
    var left, effects := MadeLevels(schema, s, body).value, DecodeStruct(schema, s, body, isBase).value.0;
    && RebuildLevels(schema, s, effects + tail) == Some((b, tail)) && EndWith(b, left) == body
    && (isBase ==> left.StopBase? && DecodeStruct(schema, s, body, isBase).value.1 == left.next)
  }

  /** The same for a level, from one of its fields on. */
  ghost predicate FieldsBack(schema: Schema, s: nat, fields: Fields, body: Body, isBase: bool, tail: seq<Effect>,
                             b: Body)
    requires MadeLevel(schema, fields, body).Some? && DecodeLevel(schema, s, fields, body, isBase).Some?
  {
    var left, effects := MadeLevel(schema, fields, body).value, DecodeLevel(schema, s, fields, body, isBase).value.0;
    && RebuildFields(schema, s, fields, effects + tail) == Some((b, tail)) && EndWith(b, left) == body
    && (isBase ==> left.StopBase? && DecodeLevel(schema, s, fields, body, isBase).value.1 == left.next)
  }

  lemma {:induction false} LevelsRestored(schema: Schema, s: nat, body: Body, isBase: bool, tail: seq<Effect>)
    returns (b: Body)
    requires Regular(schema) && s < |schema| && MadeLevels(schema, s, body).Some? && Past(s, tail)
    requires isBase == MadeLevels(schema, s, body).value.StopBase?
    requires DecodeStruct(schema, s, body, isBase).Some?
    ensures LevelsBack(schema, s, body, isBase, tail, b)
    decreases SizeOfBody(body), 3, s
  {
    assert Sorted(schema[s].fields);
    hide Regular, MadeLevel, DecodeLevel, RebuildFields, EndWith, LevelsBack, FieldsBack, RebuildLevels;
    match Base(schema, s)
    case None =>
      b := FieldsRestored(schema, s, schema[s].fields, body, isBase, tail);
      OneLevel(schema, s, body, isBase, tail, b);
    case Some(base) =>
      var next := DecodeStruct(schema, base, body, true).value.1;
      var effects := DecodeLevel(schema, s, schema[s].fields, next, isBase).value.0;
      FirstIs(schema, s, schema[s].fields, next, isBase);
      var levels := LevelsRestored(schema, base, body, true, effects + tail);
      assert next == MadeLevels(schema, base, body).value.next by {
        Follows(schema, base, body, effects + tail, levels);
      }
      var level := FieldsRestored(schema, s, schema[s].fields, next, isBase, tail);
      b := EndWith(levels, StopBase(level));
      LevelAdds(schema, s, base, body, isBase, tail, levels, level);
  }

  lemma Follows(schema: Schema, s: nat, body: Body, tail: seq<Effect>, b: Body)
    requires s < |schema| && MadeLevels(schema, s, body).Some? && DecodeStruct(schema, s, body, true).Some?
    requires LevelsBack(schema, s, body, true, tail, b)
    ensures MadeLevels(schema, s, body).value.StopBase?
    ensures DecodeStruct(schema, s, body, true).value.1 == MadeLevels(schema, s, body).value.next
  {
  }

  lemma OneLevel(schema: Schema, s: nat, body: Body, isBase: bool, tail: seq<Effect>, b: Body)
    requires s < |schema| && Base(schema, s) == None
    requires MadeLevels(schema, s, body).Some? && DecodeStruct(schema, s, body, isBase).Some?
    requires FieldsBack(schema, s, schema[s].fields, body, isBase, tail, b)
    ensures LevelsBack(schema, s, body, isBase, tail, b)
  {
    hide MadeLevel, DecodeLevel, RebuildFields, EndWith;
  }

  lemma LevelAdds(schema: Schema, s: nat, base: nat, body: Body, isBase: bool, tail: seq<Effect>, levels: Body,
                  level: Body)
    requires s < |schema| && Base(schema, s) == Some(base)
    requires MadeLevels(schema, s, body).Some? && DecodeStruct(schema, s, body, isBase).Some?
    requires var next := MadeLevels(schema, base, body).value.next;
             var r := DecodeLevel(schema, s, schema[s].fields, next, isBase);
             && r.Some? && LevelsBack(schema, base, body, true, r.value.0 + tail, levels)
             && FieldsBack(schema, s, schema[s].fields, next, isBase, tail, level)
    ensures LevelsBack(schema, s, body, isBase, tail, EndWith(levels, StopBase(level)))
  {
    hide MadeLevel, DecodeLevel, RebuildFields, EndWith;
    var next := MadeLevels(schema, base, body).value.next;
    var before := DecodeStruct(schema, base, body, true).value.0;
    var effects := DecodeLevel(schema, s, schema[s].fields, next, isBase).value.0;
    assert before + (effects + tail) == before + effects + tail;
    EndTwice(levels, level, MadeLevels(schema, s, body).value);
  }

  /** The first effect of a level is on its struct. */
  lemma {:induction false} FirstIs(schema: Schema, s: nat, fields: Fields, body: Body, isBase: bool)
    requires DecodeLevel(schema, s, fields, body, isBase).Some?
    ensures var (effects, _) := DecodeLevel(schema, s, fields, body, isBase).value;
            effects == [] || (effects[0].Assign? && effects[0].struct == s)
    decreases SizeOfBody(body), fields
  {
    hide Decode;
    match fields
    case NoFields =>
    case FieldDef(id, _, _, more) =>
      if !body.Field? || body.id > id {
        FirstIs(schema, s, more, body, isBase);
      } else if body.id != id {
        FirstIs(schema, s, if HeaderId(body.next) > id then more else fields, body.next, isBase);
      }
  }

  lemma {:induction false} FieldsRestored(schema: Schema, s: nat, fields: Fields, body: Body, isBase: bool,
                                          tail: seq<Effect>) returns (b: Body)
    requires Regular(schema) && Sorted(fields) && MadeLevel(schema, fields, body).Some? && Past(s, tail)
    requires isBase == MadeLevel(schema, fields, body).value.StopBase?
    requires DecodeLevel(schema, s, fields, body, isBase).Some?
    ensures FieldsBack(schema, s, fields, body, isBase, tail, b)
    decreases SizeOfBody(body), 2, fields
  {
    hide Regular, Made, Decode, Rebuild, FieldsBack;
    match fields
    case NoFields =>
      b := Stop;
      NothingBack(schema, s, body, isBase, tail);
    case FieldDef(id, _, ft, more) =>
      if body.Field? {
        MadeIds(schema, fields, body);
      }
      if body.Field? && body.id == id {
        var effects := DecodeLevel(schema, s, more, body.next, isBase).value.0;
        Restored(schema, ft, body.value, effects + tail);
        var next := FieldsRestored(schema, s, more, body.next, isBase, tail);
        FieldAdds(schema, s, fields, body, isBase, tail, next);
        b := Field(id, body.value, next);
      } else {
        NotAssigned(schema, s, more, body, isBase, id, tail);
        b := FieldsRestored(schema, s, more, body, isBase, tail);
        FieldMissing(schema, s, fields, body, isBase, tail, b);
      }
  }

  lemma NothingBack(schema: Schema, s: nat, body: Body, isBase: bool, tail: seq<Effect>)
    requires MadeLevel(schema, NoFields, body).Some? && DecodeLevel(schema, s, NoFields, body, isBase).Some?
    requires isBase == body.StopBase?
    ensures FieldsBack(schema, s, NoFields, body, isBase, tail, Stop)
  {
    assert [] + tail == tail;
  }

  lemma FieldAdds(schema: Schema, s: nat, fields: Fields, body: Body, isBase: bool, tail: seq<Effect>, next: Body)
    requires fields.FieldDef? && body.Field? && body.id == fields.id
    requires MadeLevel(schema, fields, body).Some? && DecodeLevel(schema, s, fields, body, isBase).Some?
    requires var effects := DecodeLevel(schema, s, fields.rest, body.next, isBase).value.0;
             Rebuild(schema, fields.ft, Decode(schema, fields.ft, body.value).value + (effects + tail))
             == Some((body.value, effects + tail))
    requires FieldsBack(schema, s, fields.rest, body.next, isBase, tail, next)
    ensures FieldsBack(schema, s, fields, body, isBase, tail, Field(body.id, body.value, next))
  {
    hide Made, Decode, Rebuild;
    var e := Decode(schema, fields.ft, body.value).value;
    var effects := DecodeLevel(schema, s, fields.rest, body.next, isBase).value.0;
    assert ([Assign(s, fields.id)] + e + effects + tail)[1..] == e + (effects + tail);
  }

  lemma FieldMissing(schema: Schema, s: nat, fields: Fields, body: Body, isBase: bool, tail: seq<Effect>, b: Body)
    requires fields.FieldDef? && (!body.Field? || body.id > fields.id)
    requires MadeLevel(schema, fields, body).Some? && DecodeLevel(schema, s, fields, body, isBase).Some?
    requires FieldsBack(schema, s, fields.rest, body, isBase, tail, b)
    requires var effects := DecodeLevel(schema, s, fields.rest, body, isBase).value.0;
             effects + tail == [] || (effects + tail)[0] != Assign(s, fields.id)
    ensures FieldsBack(schema, s, fields, body, isBase, tail, b)
  {
    hide Made, Decode, Rebuild;
    var effects := DecodeLevel(schema, s, fields.rest, body, isBase).value.0;
    assert [] + effects == effects;
  }

  /** A field that is not there is not assigned. */
  lemma {:induction false} NotAssigned(schema: Schema, s: nat, fields: Fields, body: Body, isBase: bool, id: nat,
                                       tail: seq<Effect>)
    requires Sorted(fields) && (fields.FieldDef? ==> id < fields.id) && Past(s, tail)
    requires DecodeLevel(schema, s, fields, body, isBase).Some?
    ensures var (effects, _) := DecodeLevel(schema, s, fields, body, isBase).value;
            effects + tail == [] || (effects + tail)[0] != Assign(s, id)
    decreases SizeOfBody(body), fields
  {
    hide Decode;
    match fields
    case NoFields =>
    case FieldDef(id', _, _, more) =>
      if !body.Field? || body.id > id' {
        NotAssigned(schema, s, more, body, isBase, id, tail);
      } else if body.id != id' {
        NotAssigned(schema, s, if HeaderId(body.next) > id' then more else fields, body.next, isBase, id, tail);
      }
  }

  // ------------------------------------------------------------------- slicing

  lemma {:induction false} LevelCut(schema: Schema, fields: Fields, body: Body, d: nat)
    requires d >= 1 && MadeLevel(schema, fields, body).Some?
    ensures MadeLevel(schema, fields, Cut(body, d)) == Some(Cut(MadeLevel(schema, fields, body).value, d))
    decreases SizeOfBody(body), fields
  {
    hide Made;
    if fields.FieldDef? {
      if body.Field? && body.id == fields.id {
        LevelCut(schema, fields.rest, body.next, d);
      } else {
        LevelCut(schema, fields.rest, body, d);
      }
    }
  }

  lemma {:induction false} LevelsCut(schema: Schema, s: nat, body: Body, d: nat)
    requires s < |schema| && MadeLevels(schema, s, body).Some? && d >= Depth(schema, s)
    ensures MadeLevels(schema, s, Cut(body, d))
         == Some(Cut(MadeLevels(schema, s, body).value, d + 1 - Depth(schema, s)))
    ensures !MadeLevels(schema, s, body).value.Field?
    decreases s
  {
    hide MadeLevel;
    match Base(schema, s)
    case None => LevelCut(schema, schema[s].fields, body, d);
    case Some(base) =>
      LevelsCut(schema, base, body, d);
      LevelCut(schema, schema[s].fields, MadeLevels(schema, base, body).value.next, d + 1 - Depth(schema, s));
  }

  lemma {:induction false} BaseMade(schema: Schema, s: nat, d: nat, body: Body)
    requires s < |schema| && d < |schema| && Ancestor(schema, s, d) && MadeLevels(schema, d, body).Some?
    ensures MadeLevels(schema, s, body).Some?
    decreases d
  {
    if s != d {
      BaseMade(schema, s, Base(schema, d).value, body);
    }
  }

  /** Of what is written from an object of a derived type, reading it into a base gives back the root-most
      levels, as many as the base has; into the type itself, all. */
  lemma {:induction false} SliceRestored(schema: Schema, s: nat, d: nat, v: Value)
    requires Regular(schema) && s < |schema| && d < |schema| && Ancestor(schema, s, d)
    requires Made(schema, StructOf(d), v) && Decode(schema, StructOf(s), v).Some?
    ensures Rebuild(schema, StructOf(s), Decode(schema, StructOf(s), v).value)
         == Some((Struct(Cut(v.body, Depth(schema, s))), []))
    ensures s == d ==> Cut(v.body, Depth(schema, s)) == v.body
  {
    hide Regular, MadeLevels, DecodeStruct;
    var e, w := Decode(schema, StructOf(s), v).value, Struct(Cut(v.body, Depth(schema, s)));
    BaseMade(schema, s, d, v.body);
    LevelsCut(schema, s, v.body, Depth(schema, s));
    RootMost(schema, s, v.body);
    assert Decode(schema, StructOf(s), w) == Some(e);
    assert Made(schema, StructOf(s), w);
    Restored(schema, StructOf(s), w, []);
    assert e + [] == e;
    if s == d {
      Restored(schema, StructOf(s), v, []);
    }
  }

  // ----------------------------------------------------------- required fields

  /** No required field is left out: of `ft`, nested values included. */
  predicate Whole(schema: Schema, ft: FieldType, v: Value)
    decreases SizeOf(v), 0, 0
  {
    match ft
    case Scalar(_) => true
    case StructOf(s) => v.Struct? && s < |schema| ==> WholeLevels(schema, s, v.body)
    case ContainerOf(_, elem) => v.List? ==> WholeItems(schema, elem, v.items)
    case MapOf(key, elem) => v.Map? ==> WholeEntries(schema, key, elem, v.entries)
  }

  predicate WholeItems(schema: Schema, elem: FieldType, items: Items)
    decreases SizeOfItems(items), 0, 0
  {
    items.Item? ==> Whole(schema, elem, items.head) && WholeItems(schema, elem, items.tail)
  }

  predicate WholeEntries(schema: Schema, key: FieldType, elem: FieldType, entries: Entries)
    decreases SizeOfEntries(entries), 0, 0
  {
    entries.Entry? ==>
      && Whole(schema, key, entries.key) && Whole(schema, elem, entries.value)
      && WholeEntries(schema, key, elem, entries.rest)
  }

  predicate WholeLevels(schema: Schema, s: nat, body: Body)
    requires s < |schema|
    decreases SizeOfBody(body), 3, s
  {
    match Base(schema, s)
    case None => WholeLevel(schema, schema[s].fields, body)
    case Some(base) =>
      && WholeLevels(schema, base, body)
      && match AfterBase(schema, base, body)
         case None => true
         case Some(rest) => WholeLevel(schema, schema[s].fields, rest)
  }

  predicate WholeLevel(schema: Schema, fields: Fields, body: Body)
    decreases SizeOfBody(body), 2, fields
  {
    match fields
    case NoFields => true
    case FieldDef(id, required, ft, rest) =>
      if body.Field? && body.id == id then Whole(schema, ft, body.value) && WholeLevel(schema, rest, body.next)
      else !required && WholeLevel(schema, rest, body)
  }

  /** What is written from an object is read, into its type or a base, exactly if no required field of that
      is left out. */
  lemma {:induction false} MadeReads(schema: Schema, ft: FieldType, v: Value)
    requires Regular(schema) && Made(schema, ft, v)
    ensures Decode(schema, ft, v).Some? <==> Whole(schema, ft, v)
    decreases SizeOf(v), 0, 0
  {
    hide Regular, MadeLevels, MadeItems, MadeEntries, DecodeItems, DecodeEntries, DecodeStruct;
    hide WholeItems, WholeEntries, WholeLevels;
    match ft
    case Scalar(_) =>
    case StructOf(s) => LevelsRead(schema, s, v.body, false);
    case ContainerOf(_, elem) => ItemsRead(schema, elem, v.items);
    case MapOf(key, elem) => EntriesRead(schema, key, elem, v.entries);
  }

  lemma {:induction false} ItemsRead(schema: Schema, elem: FieldType, items: Items)
    requires Regular(schema) && MadeItems(schema, elem, items)
    ensures DecodeItems(schema, elem, items).Some? <==> WholeItems(schema, elem, items)
    decreases SizeOfItems(items), 0, 0
  {
    hide Regular, Made, Decode, Whole;
    if items.Item? {
      MadeReads(schema, elem, items.head);
      ItemsRead(schema, elem, items.tail);
    }
  }

  lemma {:induction false} EntriesRead(schema: Schema, key: FieldType, elem: FieldType, entries: Entries)
    requires Regular(schema) && MadeEntries(schema, key, elem, entries)
    ensures DecodeEntries(schema, key, elem, entries).Some? <==> WholeEntries(schema, key, elem, entries)
    decreases SizeOfEntries(entries), 0, 0
  {
    hide Regular, Made, Decode, Whole;
    if entries.Entry? {
      MadeReads(schema, key, entries.key);
      MadeReads(schema, elem, entries.value);
      EntriesRead(schema, key, elem, entries.rest);
    }
  }

  lemma {:induction false} LevelsRead(schema: Schema, s: nat, body: Body, isBase: bool)
    requires Regular(schema) && s < |schema| && MadeLevels(schema, s, body).Some?
    requires isBase ==> MadeLevels(schema, s, body).value.StopBase?
    ensures DecodeStruct(schema, s, body, isBase).Some? <==> WholeLevels(schema, s, body)
    ensures isBase ==> AfterBase(schema, s, body) == Some(MadeLevels(schema, s, body).value.next)
    ensures isBase && DecodeStruct(schema, s, body, true).Some? ==>
              DecodeStruct(schema, s, body, true).value.1 == MadeLevels(schema, s, body).value.next
    decreases SizeOfBody(body), 3, s
  {
    assert Sorted(schema[s].fields);
    hide Regular, MadeLevel, DecodeLevel, WholeLevel, LevelEnd;
    match Base(schema, s)
    case None => LevelRead(schema, s, schema[s].fields, body, isBase);
    case Some(base) =>
      LevelsRead(schema, base, body, true);
      LevelRead(schema, s, schema[s].fields, MadeLevels(schema, base, body).value.next, isBase);
  }

  lemma {:induction false} LevelRead(schema: Schema, s: nat, fields: Fields, body: Body, isBase: bool)
    requires Regular(schema) && Sorted(fields) && MadeLevel(schema, fields, body).Some?
    requires isBase ==> MadeLevel(schema, fields, body).value.StopBase?
    ensures DecodeLevel(schema, s, fields, body, isBase).Some? <==> WholeLevel(schema, fields, body)
    ensures isBase ==> LevelEnd(body, true) == Some(MadeLevel(schema, fields, body).value.next)
    ensures isBase && DecodeLevel(schema, s, fields, body, true).Some? ==>
              DecodeLevel(schema, s, fields, body, true).value.1 == MadeLevel(schema, fields, body).value.next
    decreases SizeOfBody(body), 2, fields
  {
    hide Regular, Made, Decode, Whole;
    match fields
    case NoFields => MarkerEnds(body);
    case FieldDef(id, _, ft, more) =>
      if body.Field? {
        MadeIds(schema, fields, body);
      }
      if body.Field? && body.id == id {
        MadeReads(schema, ft, body.value);
        LevelRead(schema, s, more, body.next, isBase);
      } else {
        LevelRead(schema, s, more, body, isBase);
      }
  }

  // ----------------------------------------------------------- written and read

  lemma {:induction false} WholeSlice(schema: Schema, s: nat, d: nat, v: Value)
    requires Regular(schema) && s < |schema| && d < |schema| && Ancestor(schema, s, d) && Made(schema, StructOf(d), v)
    ensures Decode(schema, StructOf(s), v).Some? <==> Whole(schema, StructOf(s), v)
  {
    hide Regular, MadeLevels, DecodeStruct, WholeLevels;
    BaseMade(schema, s, d, v.body);
    LevelsRead(schema, s, v.body, false);
  }

  /** Whatever is written from an object, in any tagged protocol, is read into its type or any base of it
      exactly if no required field of that is left out, and comes back as it was, as far as its levels are
      those of the base. */
  method ReadBack(r: TaggedReader, schema: Schema, s: nat, d: nat, v: Value)
    returns (ok: bool, effects: seq<Effect>)
    requires s < |schema| && Failures.Ordered(schema)
    requires Written(r.protocol, schema, s, d, v, r.data, r.position)
    modifies r
    ensures ok <==> Whole(schema, StructOf(s), v)
    ensures ok ==> Rebuild(schema, StructOf(s), effects) == Some((Struct(Cut(v.body, Depth(schema, s))), []))
    ensures ok ==> r.position == old(r.position) + |EncodeValue(r.protocol, v)|
  {
    OrderedRegular(schema);
    WholeSlice(schema, s, d, v);
    Failures.PlainFails(schema, StructOf(s), v);
    hide Made, Decode, Rebuild, Whole, Regular, Cut, Depth, Failures.Ordered, Failures.Fails;
    ok, effects := Deserialize(r, schema, s);
    if ok {
      SliceRestored(schema, s, d, v);
    }
  }

  // -------------------------------------------------------------- Simple Binary

  lemma {:induction false} ConformsMade(schema: Schema, ft: FieldType, v: Value)
    requires Conforms(schema, ft, v)
    ensures Made(schema, ft, v)
    decreases SizeOf(v), 0, 0
  {
    hide SimpleBinary.Levels, MadeLevels, ConformItems, MadeItems, ConformEntries, MadeEntries, Valid;
    match ft
    case Scalar(_) =>
    case StructOf(s) => LevelsConformMade(schema, s, v.body);
    case ContainerOf(_, elem) => ItemsConformMade(schema, elem, v.items);
    case MapOf(key, elem) => EntriesConformMade(schema, key, elem, v.entries);
  }

  lemma {:induction false} ItemsConformMade(schema: Schema, elem: FieldType, items: Items)
    requires ConformItems(schema, elem, items)
    ensures MadeItems(schema, elem, items)
    decreases SizeOfItems(items), 0, 0
  {
    hide Conforms, Made;
    if items.Item? {
      ConformsMade(schema, elem, items.head);
      ItemsConformMade(schema, elem, items.tail);
    }
  }

  lemma {:induction false} EntriesConformMade(schema: Schema, key: FieldType, elem: FieldType, entries: Entries)
    requires ConformEntries(schema, key, elem, entries)
    ensures MadeEntries(schema, key, elem, entries)
    decreases SizeOfEntries(entries), 0, 0
  {
    hide Conforms, Made;
    if entries.Entry? {
      ConformsMade(schema, key, entries.key);
      ConformsMade(schema, elem, entries.value);
      EntriesConformMade(schema, key, elem, entries.rest);
    }
  }

  lemma {:induction false} LevelsConformMade(schema: Schema, s: nat, body: Body)
    requires s < |schema| && SimpleBinary.Levels(schema, s, body).Some?
    ensures MadeLevels(schema, s, body) == SimpleBinary.Levels(schema, s, body)
    decreases SizeOfBody(body), 2, s
  {
    hide Level, MadeLevel;
    match Base(schema, s)
    case None => LevelConformsMade(schema, schema[s].fields, body);
    case Some(base) =>
      LevelsConformMade(schema, base, body);
      LevelConformsMade(schema, schema[s].fields, SimpleBinary.Levels(schema, base, body).value.next);
  }

  lemma {:induction false} LevelConformsMade(schema: Schema, fields: Fields, body: Body)
    requires Level(schema, fields, body).Some?
    ensures MadeLevel(schema, fields, body) == Level(schema, fields, body)
    decreases SizeOfBody(body), 1, fields
  {
    hide Conforms, Made;
    if fields.FieldDef? {
      ConformsMade(schema, fields.ft, body.value);
      LevelConformsMade(schema, fields.rest, body.next);
    }
  }

  /** The same in Simple Binary, if each nested struct is read by its own schema: any value with all its fields
      comes back, as far as its levels are those of the base. */
  lemma {:induction false} SimpleBack(fuel: nat, v2: bool, schema: Schema, s: nat, d: nat, v: Value, data: seq<byte>,
                                       pos: nat)
    requires Regular(schema) && s < |schema| && d < |schema| && Ancestor(schema, s, d)
    requires Conforms(schema, StructOf(d), v) && fuel >= SizeOf(v) && At(data, pos, EncodeSimple(v2, v))
    ensures match Read(fuel, v2, schema, StructOf(d), schema, StructOf(s), data, pos)
            case None => false
            case Some((effects, end)) =>
              && Rebuild(schema, StructOf(s), effects) == Some((Struct(Cut(v.body, Depth(schema, s))), []))
              && end == pos + |EncodeSimple(v2, v)|
  {
    hide Regular, Conforms, Made, Read, Decode, Rebuild, Cut, EncodeSimple, At;
    Slice(fuel, v2, schema, d, s, v, data, pos);
    ConformsMade(schema, StructOf(d), v);
    SliceRestored(schema, s, d, v);
  }
}
