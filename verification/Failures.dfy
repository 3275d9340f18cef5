/** When deserializing raises an exception: over all levels of a hierarchy, nested values included,
    for payload fields in any order, and for stop markers with any identifiers. */
module Failures {
  import opened Bytes
  import opened Wire
  import opened Deserialization
  import opened StopMarkers
  import FieldMerge
  import FieldMergeLaws
  import Required
  import Levels

  lemma {:induction false} AfterSmaller(body: Body, i: nat)
    requires i < Required.LevelSize(body)
    ensures Required.After(body, i).Field?
    ensures SizeOf(Required.After(body, i).value) < SizeOfBody(body)
  {
    if i > 0 {
      AfterSmaller(body.next, i - 1);
    }
  }

  /** The payload field that schema field `k` meets: the first that is not smaller. */
  function Met(fields: Fields, body: Body, k: nat): (r: nat)
    requires k < Required.Length(fields)
    ensures r <= Required.LevelSize(body)
  {
    FieldMerge.Reach(Required.LevelTags(body), 0, Required.Tags(fields)[k].id)
  }

  predicate Present(fields: Fields, body: Body, k: nat)
    requires k < Required.Length(fields)
  {
    var r := Met(fields, body, k);
    r < Required.LevelSize(body) && Required.LevelTags(body)[r].id == Required.Tags(fields)[k].id
  }

  /** A missing field is noticed where the loop first considers it, or at the end of the level if the marker
      there is not beyond it. */
  predicate SeenMissing(fields: Fields, body: Body, marks: Marks, k: nat)
    requires k < Required.Length(fields)
  {
    var r, loop := Met(fields, body, k), Required.LoopFor(body, marks);
    || r == FieldMerge.Arrival(loop, Required.Tags(fields), Required.LevelTags(body), k)
    || (r == Required.LevelSize(body) && LevelMarker(body, marks) <= Required.Tags(fields)[k].id)
  }

  // ------------------------------------------------- the exceptions, declared

  ghost predicate Fails(schema: Schema, ft: FieldType, v: Value, marks: Marks)
    decreases SizeOf(v), 0, 0
  {
    match ft
    case Scalar(t) => !(v.Num? || v.Raw?) || !Compatible(t, v.t)
    case StructOf(s) => !v.Struct? || s >= |schema| || StructFails(schema, s, v.body, false, marks)
    case ContainerOf(t, elem) =>
      !v.List? || v.t != t || !Compatible(BondType(elem), v.elem) || ItemsFail(schema, elem, v.items, marks)
    case MapOf(key, elem) =>
      !v.Map? || !Compatible(BondType(key), v.key) || !Compatible(BondType(elem), v.elem)
      || EntriesFail(schema, key, elem, v.entries, marks)
  }

  ghost predicate ItemsFail(schema: Schema, elem: FieldType, items: Items, marks: Marks)
    decreases SizeOfItems(items), 0, 0
  {
    items.Item?
    && (Fails(schema, elem, items.head, Inside(marks)) || ItemsFail(schema, elem, items.tail, Onward(marks)))
  }

  ghost predicate EntriesFail(schema: Schema, key: FieldType, elem: FieldType, entries: Entries, marks: Marks)
    decreases SizeOfEntries(entries), 0, 0
  {
    entries.Entry?
    && (Fails(schema, key, entries.key, Inside(marks)) || Fails(schema, elem, entries.value, Inside(Onward(marks)))
        || EntriesFail(schema, key, elem, entries.rest, Onward(Onward(marks))))
  }

  /** Where the levels of base `s` end. */
  function AfterBaseWith(schema: Schema, s: nat, body: Body, marks: Marks): (r: Option<(Body, Marks)>)
    requires s < |schema|
    ensures r.Some? ==> SizeOfBody(r.value.0) <= SizeOfBody(body)
    ensures Levels.AfterBase(schema, s, body) == if r.Some? then Some(r.value.0) else None
  {
    match Base(schema, s)
    case None => LevelEndWith(body, marks, true)
    case Some(base) =>
      match AfterBaseWith(schema, base, body, marks)
      case None => None
      case Some((rest, left)) => LevelEndWith(rest, left, true)
  }

  /** Some level of `s` fails: the payload has too few, a field that is there fails, or a required
      one is missing and the loop notices. */
  ghost predicate StructFails(schema: Schema, s: nat, body: Body, isBase: bool, marks: Marks)
    requires s < |schema|
    decreases SizeOfBody(body), 3, s
  {
    match Base(schema, s)
    case None => LevelFails(schema, schema[s].fields, body, isBase, marks)
    case Some(base) =>
      || StructFails(schema, base, body, true, marks)
      || match AfterBaseWith(schema, base, body, marks)
         case None => true
         case Some((rest, left)) => LevelFails(schema, schema[s].fields, rest, isBase, left)
  }

  ghost predicate LevelFails(schema: Schema, fields: Fields, body: Body, isBase: bool, marks: Marks)
    decreases SizeOfBody(body), 2, 0
  {
    LevelEnd(body, isBase) == None
    || exists k :: 0 <= k < Required.Length(fields) && FieldFails(schema, fields, body, marks, k)
  }

  ghost predicate FieldFails(schema: Schema, fields: Fields, body: Body, marks: Marks, k: nat)
    requires k < Required.Length(fields)
    decreases SizeOfBody(body), 1, 0
  {
    if Present(fields, body, k) then
      var i := Met(fields, body, k);
      AfterSmaller(body, i);
      Fails(schema, Required.From(fields, k).ft, Required.After(body, i).value, Inside(Required.Past(marks, i)))
    else Required.From(fields, k).required && SeenMissing(fields, body, marks, k)
  }

  // --------------------------------------------------------------------- proof

  ghost predicate Ordered(schema: Schema) {
    forall s :: 0 <= s < |schema| ==> FieldMerge.Ascending(Required.Tags(schema[s].fields))
  }

  /** A value cannot be read exactly when it fails. */
  lemma {:induction false} DecodeFails(schema: Schema, ft: FieldType, v: Value, marks: Marks)
    requires Ordered(schema)
    ensures DecodeWith(schema, ft, v, marks) == None <==> Fails(schema, ft, v, marks)
    decreases SizeOf(v), 0, 0
  {
    hide DecodeStructWith, StructFails, DecodeItemsWith, ItemsFail, DecodeEntriesWith, EntriesFail, Ordered;
    match ft
    case Scalar(_) =>
    case StructOf(s) =>
      if v.Struct? && s < |schema| {
        StructDecodeFails(schema, s, v.body, false, marks);
      }
    case ContainerOf(_, elem) =>
      if v.List? {
        ItemsDecodeFail(schema, elem, v.items, marks);
      }
    case MapOf(key, elem) =>
      if v.Map? {
        EntriesDecodeFail(schema, key, elem, v.entries, marks);
      }
  }

  /** The same without identifiers in the markers. */
  lemma PlainFails(schema: Schema, ft: FieldType, v: Value)
    requires Ordered(schema)
    ensures Decode(schema, ft, v) == None <==> Fails(schema, ft, v, NoMarks)
  {
    ZerosHarmless(v, NoMarks);
    HarmlessDecodes(schema, ft, v, NoMarks);
    DecodeFails(schema, ft, v, NoMarks);
  }

  lemma {:induction false} ItemsDecodeFail(schema: Schema, elem: FieldType, items: Items, marks: Marks)
    requires Ordered(schema)
    ensures DecodeItemsWith(schema, elem, items, marks) == None <==> ItemsFail(schema, elem, items, marks)
    decreases SizeOfItems(items), 0, 0
  {
    hide DecodeWith, Fails, Ordered;
    if items.Item? {
      DecodeFails(schema, elem, items.head, Inside(marks));
      ItemsDecodeFail(schema, elem, items.tail, Onward(marks));
    }
  }

  lemma {:induction false} EntriesDecodeFail(schema: Schema, key: FieldType, elem: FieldType, entries: Entries,
                                             marks: Marks)
    requires Ordered(schema)
    ensures DecodeEntriesWith(schema, key, elem, entries, marks) == None
       <==> EntriesFail(schema, key, elem, entries, marks)
    decreases SizeOfEntries(entries), 0, 0
  {
    hide DecodeWith, Fails, Ordered;
    if entries.Entry? {
      DecodeFails(schema, key, entries.key, Inside(marks));
      DecodeFails(schema, elem, entries.value, Inside(Onward(marks)));
      EntriesDecodeFail(schema, key, elem, entries.rest, Onward(Onward(marks)));
    }
  }

  lemma {:induction false} StructDecodeFails(schema: Schema, s: nat, body: Body, isBase: bool, marks: Marks)
    requires Ordered(schema) && s < |schema|
    ensures DecodeStructWith(schema, s, body, isBase, marks) == None <==> StructFails(schema, s, body, isBase, marks)
    ensures DecodeStructWith(schema, s, body, isBase, marks).Some? && isBase ==>
              (var (_, rest, left) := DecodeStructWith(schema, s, body, isBase, marks).value;
               AfterBaseWith(schema, s, body, marks) == Some((rest, left)))
    decreases SizeOfBody(body), 3, s
  {
    hide DecodeLevelWith, LevelFails, LevelEndWith, FieldMerge.Ascending;
    match Base(schema, s)
    case None => LevelDecodeFails(schema, s, schema[s].fields, body, isBase, marks);
    case Some(base) =>
      StructDecodeFails(schema, base, body, true, marks);
      if DecodeStructWith(schema, base, body, true, marks).Some? {
        var (rest, left) := AfterBaseWith(schema, base, body, marks).value;
        LevelDecodeFails(schema, s, schema[s].fields, rest, isBase, left);
      }
  }

  lemma {:induction false} LevelDecodeFails(schema: Schema, s: nat, fields: Fields, body: Body, isBase: bool,
                                            marks: Marks)
    requires Ordered(schema) && FieldMerge.Ascending(Required.Tags(fields))
    ensures DecodeLevelWith(schema, s, fields, body, isBase, marks) == None
       <==> LevelFails(schema, fields, body, isBase, marks)
    ensures DecodeLevelWith(schema, s, fields, body, isBase, marks).Some? ==>
              (var (_, rest, left) := DecodeLevelWith(schema, s, fields, body, isBase, marks).value;
               LevelEndWith(body, marks, isBase) == Some((rest, left)))
    decreases SizeOfBody(body), 2, 0
  {
    hide DecodeLevelWith, LevelEndWith, LevelEnd, Ordered, FieldMerge.Ascending, FieldMerge.Merge, Required.HearAll,
      Required.Hear, FieldFails;
    var tags, payload := Required.Tags(fields), Required.LevelTags(body);
    var events := FieldMerge.Merge(Required.LoopFor(body, marks), tags, payload, 0);
    Required.LevelIsMerge(schema, s, fields, body, isBase, marks);
    Required.HearingFails(schema, s, fields, body, marks, events);
    forall e | e in events && Required.Hear(schema, s, fields, body, marks, e) == None
      ensures !e.Unknown? && e.field < |tags| && FieldFails(schema, fields, body, marks, e.field)
    {
      EventFails(schema, s, fields, body, marks, e);
    }
    forall k: nat | k < Required.Length(fields) && FieldFails(schema, fields, body, marks, k)
      ensures exists e :: e in events && Required.Hear(schema, s, fields, body, marks, e) == None
    {
      var e := FailingEvent(schema, s, fields, body, marks, k);
    }
  }

  lemma {:induction false} EventFails(schema: Schema, s: nat, fields: Fields, body: Body, marks: Marks,
                                      e: FieldMerge.Event)
    requires Ordered(schema) && FieldMerge.Ascending(Required.Tags(fields))
    requires e in FieldMerge.Merge(Required.LoopFor(body, marks), Required.Tags(fields), Required.LevelTags(body), 0)
    requires Required.Hear(schema, s, fields, body, marks, e) == None
    ensures !e.Unknown? && e.field < Required.Length(fields) && FieldFails(schema, fields, body, marks, e.field)
    decreases SizeOfBody(body), 1, 0
  {
    hide FieldMerge.Merge, FieldMerge.Ascending, FieldMerge.Reach, FieldMerge.Arrival, DecodeWith, Fails, Ordered;
    FieldMergeLaws.TaggedPartition(Required.Tags(fields), Required.LevelTags(body), LevelMarker(body, marks), e.field);
    if e.Known? {
      AfterSmaller(body, e.at);
      DecodeFails(schema, Required.From(fields, e.field).ft, Required.After(body, e.at).value,
                  Inside(Required.Past(marks, e.at)));
    }
  }

  lemma {:induction false} FailingEvent(schema: Schema, s: nat, fields: Fields, body: Body, marks: Marks, k: nat)
    returns (e: FieldMerge.Event)
    requires Ordered(schema) && FieldMerge.Ascending(Required.Tags(fields)) && k < Required.Length(fields)
    requires FieldFails(schema, fields, body, marks, k)
    ensures e in FieldMerge.Merge(Required.LoopFor(body, marks), Required.Tags(fields), Required.LevelTags(body), 0)
    ensures Required.Hear(schema, s, fields, body, marks, e) == None
    decreases SizeOfBody(body), 1, 0
  {
    hide FieldMerge.Merge, FieldMerge.Ascending, FieldMerge.Reach, FieldMerge.Arrival, DecodeWith, Fails, Ordered;
    FieldMergeLaws.TaggedPartition(Required.Tags(fields), Required.LevelTags(body), LevelMarker(body, marks), k);
    if Present(fields, body, k) {
      var i := Met(fields, body, k);
      AfterSmaller(body, i);
      DecodeFails(schema, Required.From(fields, k).ft, Required.After(body, i).value, Inside(Required.Past(marks, i)));
      e := FieldMerge.Known(k, i);
    } else {
      e := FieldMerge.Omitted(k);
    }
  }
}
