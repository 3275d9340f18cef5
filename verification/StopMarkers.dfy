/** The identifiers that the stop markers of a Compact payload may carry, which the C# loop compares
    with those of the schema, and what they do to a missing field. */
module StopMarkers {
  import opened Bytes
  import opened Wire
  import opened Grammar
  import opened Deserialization
  import Slicing
  import RoundTrip
  import Varint

  /** The identifiers of the markers in a value, nested ones included, in the shape of the value: a
      `Mark` for each marker, a `Both` for each item, key, mapped value and field. */
  datatype Marks = NoMarks | Mark(id: nat, next: Marks) | Both(inside: Marks, after: Marks)

  function MarkerId(marks: Marks): nat {
    if marks.Mark? then marks.id else 0
  }

  function Inside(marks: Marks): Marks {
    if marks.Both? then marks.inside else NoMarks
  }

  function Onward(marks: Marks): Marks {
    match marks
    case NoMarks => NoMarks
    case Mark(_, next) => next
    case Both(_, after) => after
  }

  // ------------------------------------------------- decoding with markers of any identifier

  type LevelResult = Option<(seq<Effect>, Body, Marks)>

  /** The identifier in the next header, a marker's or a field's. */
  function NextId(body: Body, marks: Marks): nat {
    if body.Field? then body.id else MarkerId(marks)
  }

  function LevelEndWith(body: Body, marks: Marks, isBase: bool): (r: Option<(Body, Marks)>)
    ensures r.Some? ==> SizeOfBody(r.value.0) <= SizeOfBody(body)
    ensures LevelEnd(body, isBase) == if r.Some? then Some(r.value.0) else None
  {
    match body
    case Stop => if isBase then None else Some((Stop, NoMarks))
    case StopBase(next) => if isBase then Some((next, Onward(marks))) else LevelEndWith(next, Onward(marks), false)
    case Field(_, _, next) => LevelEndWith(next, Onward(marks), isBase)
  }

  function BeforeWith(a: Option<seq<Effect>>, b: LevelResult): (r: LevelResult)
    ensures r.Some? ==> b.Some? && r.value.1 == b.value.1 && r.value.2 == b.value.2
  {
    if a.Some? && b.Some? then Some((a.value + b.value.0, b.value.1, b.value.2)) else None
  }

  /** `Decode` for a value whose markers carry identifiers. */
  function DecodeWith(schema: Schema, ft: FieldType, v: Value, marks: Marks): Option<seq<Effect>>
    decreases SizeOf(v), 0, 0
  {
    match ft
    case Scalar(t) => if (v.Num? || v.Raw?) && Compatible(t, v.t) then Some([Leaf(v)]) else None
    case StructOf(s) =>
      if !v.Struct? || s >= |schema| then None
      else
        (match DecodeStructWith(schema, s, v.body, false, marks)
         case None => None
         case Some((effects, _, _)) => Some([Fill(s)] + effects + [Filled(s)]))
    case ContainerOf(t, elem) =>
      if !v.List? || v.t != t || !Compatible(BondType(elem), v.elem) then None
      else Then(Some([Resize(Count(v.items))]), DecodeItemsWith(schema, elem, v.items, marks))
    case MapOf(key, elem) =>
      if !v.Map? || !Compatible(BondType(key), v.key) || !Compatible(BondType(elem), v.elem) then None
      else Then(Some([Resize(CountEntries(v.entries))]), DecodeEntriesWith(schema, key, elem, v.entries, marks))
  }

  function DecodeItemsWith(schema: Schema, elem: FieldType, items: Items, marks: Marks): Option<seq<Effect>>
    decreases SizeOfItems(items), 0, 0
  {
    match items
    case NoItems => Some([])
    case Item(head, tail) =>
      Then(DecodeWith(schema, elem, head, Inside(marks)), DecodeItemsWith(schema, elem, tail, Onward(marks)))
  }

  function DecodeEntriesWith(schema: Schema, key: FieldType, elem: FieldType, entries: Entries, marks: Marks)
    : Option<seq<Effect>>
    decreases SizeOfEntries(entries), 0, 0
  {
    match entries
    case NoEntries => Some([])
    case Entry(k, v, rest) =>
      Then(DecodeWith(schema, key, k, Inside(marks)),
           Then(DecodeWith(schema, elem, v, Inside(Onward(marks))),
                DecodeEntriesWith(schema, key, elem, rest, Onward(Onward(marks)))))
  }

  function DecodeStructWith(schema: Schema, s: nat, body: Body, isBase: bool, marks: Marks): (r: LevelResult)
    requires s < |schema|
    ensures r.Some? ==> SizeOfBody(r.value.1) <= SizeOfBody(body)
    decreases SizeOfBody(body), 2, s
  {
    match Base(schema, s)
    case None => DecodeLevelWith(schema, s, schema[s].fields, body, isBase, marks)
    case Some(base) =>
      match DecodeStructWith(schema, base, body, true, marks)
      case None => None
      case Some((effects, rest, left)) =>
        BeforeWith(Some(effects), DecodeLevelWith(schema, s, schema[s].fields, rest, isBase, left))
  }

  function DecodeLevelWith(schema: Schema, s: nat, fields: Fields, body: Body, isBase: bool, marks: Marks)
    : (r: LevelResult)
    ensures r.Some? ==> SizeOfBody(r.value.1) <= SizeOfBody(body)
    decreases SizeOfBody(body), 1, fields
  {
    match fields
    case NoFields =>
      (match LevelEndWith(body, marks, isBase)
       case None => None
       case Some((rest, left)) => Some(([], rest, left)))
    case FieldDef(id, required, ft, more) =>
      if !body.Field? || body.id > id then
        BeforeWith(Absent(required), DecodeLevelWith(schema, s, more, body, isBase, marks))
      else if body.id == id then
        BeforeWith(Then(Some([Assign(s, id)]), DecodeWith(schema, ft, body.value, Inside(marks))),
                   DecodeLevelWith(schema, s, more, body.next, isBase, Onward(marks)))
      else if NextId(body.next, Onward(marks)) > id then
        DecodeLevelWith(schema, s, more, body.next, isBase, Onward(marks))
      else DecodeLevelWith(schema, s, fields, body.next, isBase, Onward(marks))
  }

  /** Reading a level takes it to its end. */
  lemma {:induction false} LevelRest(schema: Schema, s: nat, fields: Fields, body: Body, isBase: bool, marks: Marks)
    requires DecodeLevelWith(schema, s, fields, body, isBase, marks).Some?
    ensures var (_, rest, left) := DecodeLevelWith(schema, s, fields, body, isBase, marks).value;
            LevelEndWith(body, marks, isBase) == Some((rest, left))
    decreases SizeOfBody(body), fields
  {
    hide DecodeWith;
    match fields
    case NoFields =>
    case FieldDef(id, _, _, more) =>
      if !body.Field? || body.id > id {
        LevelRest(schema, s, more, body, isBase, marks);
      } else if body.id == id || NextId(body.next, Onward(marks)) > id {
        LevelRest(schema, s, more, body.next, isBase, Onward(marks));
      } else {
        LevelRest(schema, s, fields, body.next, isBase, Onward(marks));
      }
  }

  // ----------------------------------------------------------- markers that change nothing

  /** No schema can have a field between the last field of a level and its marker. */
  predicate HarmlessMarker(last: Option<nat>, id: nat) {
    last == None || id <= last.value + 1
  }

  /** No marker in the value can hide a field of any schema. */
  predicate Harmless(v: Value, marks: Marks)
    decreases v
  {
    && (v.List? ==> HarmlessItems(v.items, marks))
    && (v.Map? ==> HarmlessEntries(v.entries, marks))
    && (v.Struct? ==> HarmlessBody(v.body, None, marks))
  }

  predicate HarmlessItems(items: Items, marks: Marks)
    decreases items
  {
    items.Item? ==> Harmless(items.head, Inside(marks)) && HarmlessItems(items.tail, Onward(marks))
  }

  predicate HarmlessEntries(entries: Entries, marks: Marks)
    decreases entries
  {
    entries.Entry? ==>
      && Harmless(entries.key, Inside(marks)) && Harmless(entries.value, Inside(Onward(marks)))
      && HarmlessEntries(entries.rest, Onward(Onward(marks)))
  }

  /** `last` is the field just before `body`. */
  predicate HarmlessBody(body: Body, last: Option<nat>, marks: Marks)
    decreases body
  {
    match body
    case Stop => HarmlessMarker(last, MarkerId(marks))
    case StopBase(next) => HarmlessMarker(last, MarkerId(marks)) && HarmlessBody(next, None, Onward(marks))
    case Field(id, v, next) => Harmless(v, Inside(marks)) && HarmlessBody(next, Some(id), Onward(marks))
  }

  function Unmarked(r: LevelResult): Option<(seq<Effect>, Body)> {
    if r.Some? then Some((r.value.0, r.value.1)) else None
  }

  /** Harmless markers change nothing, and no marker keeps anything from being read. */
  lemma {:induction false} HarmlessDecodes(schema: Schema, ft: FieldType, v: Value, marks: Marks)
    requires Harmless(v, marks) || Decode(schema, ft, v).Some?
    ensures DecodeWith(schema, ft, v, marks) == Decode(schema, ft, v)
    decreases SizeOf(v), 0, 0
  {
    hide HarmlessItems, HarmlessEntries, HarmlessBody;
    match ft
    case Scalar(_) =>
    case StructOf(s) =>
      if v.Struct? && s < |schema| {
        HarmlessStruct(schema, s, v.body, false, marks);
      }
    case ContainerOf(_, elem) =>
      if v.List? && (HarmlessItems(v.items, marks) || DecodeItems(schema, elem, v.items).Some?) {
        HarmlessItemsDecode(schema, elem, v.items, marks);
      }
    case MapOf(key, elem) =>
      if v.Map? && (HarmlessEntries(v.entries, marks) || DecodeEntries(schema, key, elem, v.entries).Some?) {
        HarmlessEntriesDecode(schema, key, elem, v.entries, marks);
      }
  }

  lemma {:induction false} HarmlessItemsDecode(schema: Schema, elem: FieldType, items: Items, marks: Marks)
    requires HarmlessItems(items, marks) || DecodeItems(schema, elem, items).Some?
    ensures DecodeItemsWith(schema, elem, items, marks) == DecodeItems(schema, elem, items)
    decreases SizeOfItems(items), 0, 0
  {
    hide Harmless, Decode, DecodeWith;
    if items.Item? {
      HarmlessDecodes(schema, elem, items.head, Inside(marks));
      if Decode(schema, elem, items.head).Some? {
        if HarmlessItems(items.tail, Onward(marks)) || DecodeItems(schema, elem, items.tail).Some? {
          HarmlessItemsDecode(schema, elem, items.tail, Onward(marks));
        }
      }
    }
  }

  lemma {:induction false} HarmlessEntriesDecode(schema: Schema, key: FieldType, elem: FieldType, entries: Entries,
                                                 marks: Marks)
    requires HarmlessEntries(entries, marks) || DecodeEntries(schema, key, elem, entries).Some?
    ensures DecodeEntriesWith(schema, key, elem, entries, marks) == DecodeEntries(schema, key, elem, entries)
    decreases SizeOfEntries(entries), 0, 0
  {
    hide Harmless, Decode, DecodeWith;
    if entries.Entry? {
      HarmlessDecodes(schema, key, entries.key, Inside(marks));
      HarmlessDecodes(schema, elem, entries.value, Inside(Onward(marks)));
      HarmlessEntriesDecode(schema, key, elem, entries.rest, Onward(Onward(marks)));
    }
  }

  lemma {:induction false} HarmlessStruct(schema: Schema, s: nat, body: Body, isBase: bool, marks: Marks)
    requires s < |schema| && (HarmlessBody(body, None, marks) || DecodeStruct(schema, s, body, isBase).Some?)
    ensures Unmarked(DecodeStructWith(schema, s, body, isBase, marks)) == DecodeStruct(schema, s, body, isBase)
    ensures var r := DecodeStructWith(schema, s, body, isBase, marks);
            isBase && r.Some? && HarmlessBody(body, None, marks) ==> HarmlessBody(r.value.1, None, r.value.2)
    decreases SizeOfBody(body), 2, s
  {
    hide DecodeLevel, DecodeLevelWith, HarmlessBody;
    var fields := schema[s].fields;
    var last, left := body, marks;
    if Base(schema, s).Some? {
      HarmlessStruct(schema, Base(schema, s).value, body, true, marks);
      var r := DecodeStructWith(schema, Base(schema, s).value, body, true, marks);
      if r == None {
        return;
      }
      last, left := r.value.1, r.value.2;
    }
    HarmlessLevel(schema, s, fields, last, isBase, None, left);
    if isBase && HarmlessBody(body, None, marks) && DecodeLevelWith(schema, s, fields, last, true, left).Some? {
      HarmlessOnward(schema, s, fields, last, left);
    }
  }

  lemma HarmlessOnward(schema: Schema, s: nat, fields: Fields, body: Body, marks: Marks)
    requires HarmlessBody(body, None, marks) && DecodeLevelWith(schema, s, fields, body, true, marks).Some?
    ensures var (_, rest, left) := DecodeLevelWith(schema, s, fields, body, true, marks).value;
            HarmlessBody(rest, None, left)
  {
    hide DecodeLevelWith;
    LevelRest(schema, s, fields, body, true, marks);
    HarmlessRest(body, None, marks);
  }

  lemma {:induction false} HarmlessRest(body: Body, last: Option<nat>, marks: Marks)
    requires HarmlessBody(body, last, marks) && LevelEndWith(body, marks, true).Some?
    ensures var (rest, left) := LevelEndWith(body, marks, true).value; HarmlessBody(rest, None, left)
  {
    if body.Field? {
      HarmlessRest(body.next, Some(body.id), Onward(marks));
    }
  }

  lemma {:induction false} HarmlessLevel(schema: Schema, s: nat, fields: Fields, body: Body, isBase: bool,
                                         last: Option<nat>, marks: Marks)
    requires HarmlessBody(body, last, marks) || DecodeLevel(schema, s, fields, body, isBase).Some?
    ensures Unmarked(DecodeLevelWith(schema, s, fields, body, isBase, marks))
         == DecodeLevel(schema, s, fields, body, isBase)
    decreases SizeOfBody(body), 1, fields
  {
    hide Decode, DecodeWith, Harmless, LevelEndWith;
    match fields
    case NoFields =>
    case FieldDef(id, _, _, more) =>
      if !body.Field? || body.id > id {
        HarmlessLevel(schema, s, more, body, isBase, last, marks);
      } else if body.id == id {
        HarmlessKnown(schema, s, fields, body, isBase, last, marks);
      } else if HeaderId(body.next) > id {
        HarmlessLevel(schema, s, more, body.next, isBase, Some(body.id), Onward(marks));
      } else {
        HarmlessLevel(schema, s, fields, body.next, isBase, Some(body.id), Onward(marks));
        if NextId(body.next, Onward(marks)) > id {
          HiddenLast(schema, s, fields, body.next, isBase);
          HarmlessLevel(schema, s, more, body.next, isBase, Some(body.id), Onward(marks));
        }
      }
  }

  lemma {:induction false} HarmlessKnown(schema: Schema, s: nat, fields: Fields, body: Body, isBase: bool,
                                         last: Option<nat>, marks: Marks)
    requires fields.FieldDef? && body.Field? && body.id == fields.id
    requires HarmlessBody(body, last, marks) || DecodeLevel(schema, s, fields, body, isBase).Some?
    ensures Unmarked(DecodeLevelWith(schema, s, fields, body, isBase, marks))
         == DecodeLevel(schema, s, fields, body, isBase)
    decreases SizeOfBody(body), 0, 0
  {
    hide Decode, DecodeWith, Harmless;
    HarmlessDecodes(schema, fields.ft, body.value, Inside(marks));
    HarmlessLevel(schema, s, fields.rest, body.next, isBase, Some(body.id), Onward(marks));
  }

  /** At the end of a level that can be read a field that is left over is optional. */
  lemma HiddenLast(schema: Schema, s: nat, fields: Fields, body: Body, isBase: bool)
    requires fields.FieldDef? && !body.Field?
    ensures DecodeLevel(schema, s, fields, body, isBase).Some? ==>
              DecodeLevel(schema, s, fields, body, isBase) == DecodeLevel(schema, s, fields.rest, body, isBase)
  {
    assert forall e: seq<Effect> :: [] + e == e;
  }

  // ----------------------------------------------------------- which field a marker hides

  /** The identifier of the last field of the level at hand. */
  function LastId(body: Body): (r: Option<nat>)
    ensures body.Field? <==> r.Some?
  {
    if !body.Field? then None
    else if body.next.Field? then LastId(body.next)
    else Some(body.id)
  }

  /** The identifier of the marker at the end of the level. */
  function LevelMarker(body: Body, marks: Marks): nat {
    if body.Field? then LevelMarker(body.next, Onward(marks)) else MarkerId(marks)
  }

  /** The same markers, but for the one at the end of the level, which has no identifier. */
  function Cleared(body: Body, marks: Marks): Marks {
    if body.Field? then Both(Inside(marks), Cleared(body.next, Onward(marks))) else Mark(0, Onward(marks))
  }

  predicate Ascends(body: Body) {
    body.Field? ==> (body.next.Field? ==> body.id < body.next.id) && Ascends(body.next)
  }

  /** The first field beyond `last` is no longer required if the marker's identifier is beyond it. */
  function Waive(fields: Fields, last: nat, stop: nat): Fields {
    match fields
    case NoFields => NoFields
    case FieldDef(id, required, ft, rest) =>
      if id < last then FieldDef(id, required, ft, Waive(rest, last, stop))
      else if id == last then fields
      else FieldDef(id, required && stop <= id, ft, rest)
  }

  lemma {:induction false} ClearedEnd(body: Body, marks: Marks, isBase: bool)
    ensures LevelEndWith(body, Cleared(body, marks), isBase) == LevelEndWith(body, marks, isBase)
  {
    if body.Field? {
      ClearedEnd(body.next, Onward(marks), isBase);
    }
  }

  /** Exactly what the identifier of a marker does: the first field of the schema beyond the level's last
      field need not be there if that last field is not in the schema and the identifier is beyond the
      schema's field. Nothing else changes. */
  lemma {:induction false} StopHides(schema: Schema, s: nat, fields: Fields, body: Body, isBase: bool, marks: Marks)
    requires Slicing.Sorted(fields) && Ascends(body)
    ensures DecodeLevelWith(schema, s, fields, body, isBase, marks)
         == DecodeLevelWith(schema, s,
                            if LastId(body).Some? then Waive(fields, LastId(body).value, LevelMarker(body, marks))
                            else fields,
                            body, isBase, Cleared(body, marks))
    decreases SizeOfBody(body), fields
  {
    hide DecodeWith;
    match fields
    case NoFields => ClearedEnd(body, marks, isBase);
    case FieldDef(id, required, ft, more) =>
      if !body.Field? {
        StopHides(schema, s, more, body, isBase, marks);
      } else {
        LastIsLargest(body);
        if body.id > id {
          StopHides(schema, s, more, body, isBase, marks);
        } else if body.id == id {
          StopHides(schema, s, more, body.next, isBase, Onward(marks));
        } else if body.next.Field? && body.next.id > id {
          LastIsLargest(body.next);
          StopHides(schema, s, more, body.next, isBase, Onward(marks));
        } else if NextId(body.next, Onward(marks)) > id {
          StopHides(schema, s, more, body.next, isBase, Onward(marks));
          Waived(schema, s, fields, body, isBase, Cleared(body, marks));
        } else {
          StopHides(schema, s, fields, body.next, isBase, Onward(marks));
        }
      }
  }

  /** An optional field for which the last field of the level has been passed over. */
  lemma Waived(schema: Schema, s: nat, fields: Fields, body: Body, isBase: bool, marks: Marks)
    requires fields.FieldDef? && body.Field? && !body.next.Field? && body.id < fields.id
    requires MarkerId(Onward(marks)) == 0
    ensures DecodeLevelWith(schema, s, fields.(required := false), body, isBase, marks)
         == DecodeLevelWith(schema, s, fields.rest, body.next, isBase, Onward(marks))
  {
    hide DecodeWith;
    assert forall e: seq<Effect> :: [] + e == e;
    assert DecodeLevelWith(schema, s, fields.(required := false), body, isBase, marks)
        == DecodeLevelWith(schema, s, fields.(required := false), body.next, isBase, Onward(marks));
  }

  lemma {:induction false} LastIsLargest(body: Body)
    requires Ascends(body) && body.Field?
    ensures body.id <= LastId(body).value
    ensures body.next.Field? ==> body.id < LastId(body).value && LastId(body) == LastId(body.next)
  {
    if body.next.Field? {
      LastIsLargest(body.next);
    }
  }

  // ---------------------------------------------------------------- markers in a payload

  /** The markers of the value at `pos`. */
  function MarksAt(p: Protocol, t: byte, data: seq<byte>, pos: nat): Marks
    decreases if pos < |data| then |data| - pos else 0, 1, 0
  {
    if t == BT_LIST || t == BT_SET then
      match ParseListHeader(p, data, pos)
      case None => NoMarks
      case Some((elem, count, start)) => MarksOfItems(p, elem, count, data, start)
    else if t == BT_MAP then
      match ParseMapHeader(data, pos)
      case None => NoMarks
      case Some((key, elem, count, start)) => MarksOfEntries(p, key, elem, count, data, start)
    else if t == BT_STRUCT then
      match ParseLength(p, data, pos)
      case None => NoMarks
      case Some((_, start)) => MarksOfBody(p, data, start)
    else NoMarks
  }

  function MarksOfItems(p: Protocol, elem: byte, count: nat, data: seq<byte>, pos: nat): Marks
    decreases if pos < |data| then |data| - pos else 0, 2, count
  {
    if count == 0 then NoMarks
    else
      match ParseValue(p, elem, data, pos)
      case None => NoMarks
      case Some((_, mid)) => Both(MarksAt(p, elem, data, pos), MarksOfItems(p, elem, count - 1, data, mid))
  }

  function MarksOfEntries(p: Protocol, key: byte, elem: byte, count: nat, data: seq<byte>, pos: nat): Marks
    decreases if pos < |data| then |data| - pos else 0, 2, count
  {
    if count == 0 then NoMarks
    else
      match ParseValue(p, key, data, pos)
      case None => NoMarks
      case Some((_, mid)) =>
        match ParseValue(p, elem, data, mid)
        case None => NoMarks
        case Some((_, after)) =>
          Both(MarksAt(p, key, data, pos),
               Both(MarksAt(p, elem, data, mid), MarksOfEntries(p, key, elem, count - 1, data, after)))
  }

  function MarksOfBody(p: Protocol, data: seq<byte>, pos: nat): Marks
    decreases if pos < |data| then |data| - pos else 0, 0, 1
  {
    match ParseFieldHeader(p, data, pos)
    case None => NoMarks
    case Some((t, id, start)) => MarksAfter(p, t, id, data, start)
  }

  function MarksAfter(p: Protocol, t: byte, id: nat, data: seq<byte>, pos: nat): Marks
    decreases if pos < |data| then |data| - pos else 0, 2, 0
  {
    if t == BT_STOP then Mark(id, NoMarks)
    else if t == BT_STOP_BASE then Mark(id, MarksOfBody(p, data, pos))
    else
      match ParseValue(p, t, data, pos)
      case None => NoMarks
      case Some((_, mid)) => Both(MarksAt(p, t, data, pos), MarksOfBody(p, data, mid))
  }

  /** No marker in the value at `pos` can hide a field of any schema. */
  predicate Quiet(p: Protocol, t: byte, data: seq<byte>, pos: nat) {
    ParseValue(p, t, data, pos).Some? ==> Harmless(ParseValue(p, t, data, pos).value.0, MarksAt(p, t, data, pos))
  }

  // ------------------------------------------------------------------ what a writer writes

  predicate Zeros(marks: Marks) {
    match marks
    case NoMarks => true
    case Mark(id, next) => id == 0 && Zeros(next)
    case Both(inside, after) => Zeros(inside) && Zeros(after)
  }

  lemma ZerosInside(marks: Marks)
    requires Zeros(marks)
    ensures Zeros(Inside(marks)) && Zeros(Onward(marks)) && MarkerId(marks) == 0
  {
  }

  /** Markers without an identifier are harmless. */
  lemma {:induction false} ZerosHarmless(v: Value, marks: Marks)
    requires Zeros(marks)
    ensures Harmless(v, marks)
    decreases v
  {
    if v.List? {
      ZeroItemsHarmless(v.items, marks);
    } else if v.Map? {
      ZeroEntriesHarmless(v.entries, marks);
    } else if v.Struct? {
      ZeroBodyHarmless(v.body, None, marks);
    }
  }

  lemma {:induction false} ZeroItemsHarmless(items: Items, marks: Marks)
    requires Zeros(marks)
    ensures HarmlessItems(items, marks)
    decreases items
  {
    if items.Item? {
      ZerosInside(marks);
      ZerosHarmless(items.head, Inside(marks));
      ZeroItemsHarmless(items.tail, Onward(marks));
    }
  }

  lemma {:induction false} ZeroEntriesHarmless(entries: Entries, marks: Marks)
    requires Zeros(marks)
    ensures HarmlessEntries(entries, marks)
    decreases entries
  {
    if entries.Entry? {
      ZerosInside(marks);
      ZerosInside(Onward(marks));
      ZerosHarmless(entries.key, Inside(marks));
      ZerosHarmless(entries.value, Inside(Onward(marks)));
      ZeroEntriesHarmless(entries.rest, Onward(Onward(marks)));
    }
  }

  lemma {:induction false} ZeroBodyHarmless(body: Body, last: Option<nat>, marks: Marks)
    requires Zeros(marks)
    ensures HarmlessBody(body, last, marks)
    decreases body
  {
    ZerosInside(marks);
    match body
    case Stop =>
    case StopBase(next) => ZeroBodyHarmless(next, None, Onward(marks));
    case Field(id, v, next) =>
      ZerosHarmless(v, Inside(marks));
      ZeroBodyHarmless(next, Some(id), Onward(marks));
  }

  /** In no encoding does a marker carry an identifier. */
  lemma {:induction false} WrittenZeros(p: Protocol, v: Value, data: seq<byte>, pos: nat)
    requires Valid(v) && |data| < Varint.U32 && At(data, pos, EncodeValue(p, v))
    ensures Zeros(MarksAt(p, TypeOf(v), data, pos))
    decreases v
  {
    hide ParseListHeader, ParseMapHeader, EncodeListHeader, EncodeMapHeader, EncodeNum, EncodeLength, ParseLength,
      MarksOfItems, MarksOfEntries, MarksOfBody, EncodeItems, EncodeEntries, EncodeBody, ValidItems, ValidEntries,
      ValidBody, At;
    match v
    case Num(_, _) =>
    case Raw(_, _) =>
    case List(_, elem, items) =>
      var header := EncodeListHeader(p, elem, Count(items));
      AtConcat(data, pos, header, EncodeItems(p, elem, items));
      RoundTrip.ListHeaderRoundTrip(p, elem, Count(items), data, pos);
      WrittenItemsZeros(p, elem, items, data, pos + |header|);
    case Map(key, elem, entries) =>
      var header := EncodeMapHeader(key, elem, CountEntries(entries));
      AtConcat(data, pos, header, EncodeEntries(p, key, elem, entries));
      RoundTrip.MapHeaderRoundTrip(key, elem, CountEntries(entries), data, pos);
      WrittenEntriesZeros(p, key, elem, entries, data, pos + |header|);
    case Struct(body) =>
      var length := |EncodeBody(p, body)|;
      AtConcat(data, pos, EncodeLength(p, length), EncodeBody(p, body));
      AtFits(data, pos + |EncodeLength(p, length)|, EncodeBody(p, body));
      RoundTrip.LengthRoundTrip(p, length, data, pos);
      WrittenBodyZeros(p, body, data, pos + |EncodeLength(p, length)|);
  }

  lemma {:induction false} WrittenItemsZeros(p: Protocol, elem: byte, items: Items, data: seq<byte>, pos: nat)
    requires ValidItems(elem, items) && |data| < Varint.U32 && At(data, pos, EncodeItems(p, elem, items))
    ensures Zeros(MarksOfItems(p, elem, Count(items), data, pos))
    decreases items
  {
    hide EncodeValue, ParseValue, Valid, At, MarksAt;
    match items
    case NoItems =>
    case Item(head, tail) =>
      AtConcat(data, pos, EncodeValue(p, head), EncodeItems(p, elem, tail));
      RoundTrip.ValueRoundTrip(p, head, data, pos);
      WrittenZeros(p, head, data, pos);
      WrittenItemsZeros(p, elem, tail, data, pos + |EncodeValue(p, head)|);
  }

  lemma {:induction false} WrittenEntriesZeros(p: Protocol, key: byte, elem: byte, entries: Entries,
                                               data: seq<byte>, pos: nat)
    requires ValidEntries(key, elem, entries) && |data| < Varint.U32
    requires At(data, pos, EncodeEntries(p, key, elem, entries))
    ensures Zeros(MarksOfEntries(p, key, elem, CountEntries(entries), data, pos))
    decreases entries
  {
    hide EncodeValue, ParseValue, Valid, At, MarksAt;
    match entries
    case NoEntries =>
    case Entry(k, v, rest) =>
      var mid := pos + |EncodeValue(p, k)|;
      AtConcat(data, pos, EncodeValue(p, k), EncodeValue(p, v) + EncodeEntries(p, key, elem, rest));
      AtConcat(data, mid, EncodeValue(p, v), EncodeEntries(p, key, elem, rest));
      RoundTrip.ValueRoundTrip(p, k, data, pos);
      RoundTrip.ValueRoundTrip(p, v, data, mid);
      WrittenZeros(p, k, data, pos);
      WrittenZeros(p, v, data, mid);
      WrittenEntriesZeros(p, key, elem, rest, data, mid + |EncodeValue(p, v)|);
  }

  lemma {:induction false} WrittenBodyZeros(p: Protocol, body: Body, data: seq<byte>, pos: nat)
    requires ValidBody(body) && |data| < Varint.U32 && At(data, pos, EncodeBody(p, body))
    ensures Zeros(MarksOfBody(p, data, pos))
    decreases body
  {
    hide EncodeValue, ParseValue, Valid, At, MarksAt, EncodeFieldHeader, ParseFieldHeader;
    match body
    case Stop => RoundTrip.StopRoundTrip(p, BT_STOP, data, pos);
    case StopBase(next) =>
      AtConcat(data, pos, [BT_STOP_BASE], EncodeBody(p, next));
      RoundTrip.StopRoundTrip(p, BT_STOP_BASE, data, pos);
      WrittenBodyZeros(p, next, data, pos + 1);
      assert MarksAfter(p, BT_STOP_BASE, 0, data, pos + 1) == Mark(0, MarksOfBody(p, data, pos + 1));
    case Field(id, v, next) =>
      var header := EncodeFieldHeader(p, TypeOf(v), id);
      var mid := pos + |header|;
      var end := mid + |EncodeValue(p, v)|;
      AtConcat(data, pos, header, EncodeValue(p, v) + EncodeBody(p, next));
      AtConcat(data, mid, EncodeValue(p, v), EncodeBody(p, next));
      RoundTrip.FieldHeaderRoundTrip(p, TypeOf(v), id, data, pos);
      RoundTrip.ValueRoundTrip(p, v, data, mid);
      WrittenZeros(p, v, data, mid);
      WrittenBodyZeros(p, next, data, end);
      assert MarksAfter(p, TypeOf(v), id, data, mid)
          == Both(MarksAt(p, TypeOf(v), data, mid), MarksOfBody(p, data, end));
  }

  /** Every encoding is quiet, wherever it stands. */
  lemma WrittenQuiet(p: Protocol, v: Value, data: seq<byte>, pos: nat)
    requires Valid(v) && |data| < Varint.U32 && At(data, pos, EncodeValue(p, v))
    ensures Quiet(p, TypeOf(v), data, pos)
  {
    hide ParseValue, EncodeValue, Valid, At, MarksAt, Harmless;
    RoundTrip.ValueRoundTrip(p, v, data, pos);
    WrittenZeros(p, v, data, pos);
    ZerosHarmless(v, MarksAt(p, TypeOf(v), data, pos));
  }
}
