/** Whether the structs in a payload have the levels that a schema looks for: so have all values written
    from objects of the type or of a derived one, whichever of their fields are left out. */
module Levels {
  import opened Bytes
  import opened Wire
  import opened Deserialization
  import opened Slicing

  /** Where the levels of base `s` end. */
  function AfterBase(schema: Schema, s: nat, body: Body): (r: Option<Body>)
    requires s < |schema|
    ensures r.Some? ==> SizeOfBody(r.value) <= SizeOfBody(body)
  {
    match Base(schema, s)
    case None => LevelEnd(body, true)
    case Some(base) =>
      match AfterBase(schema, base, body)
      case None => None
      case Some(rest) => LevelEnd(rest, true)
  }

  /** Every struct that is read has as many levels as the struct it is read into. Of fields that are not
      in the schema nothing is asked. */
  predicate Enough(schema: Schema, ft: FieldType, v: Value)
    decreases SizeOf(v), 0, 0
  {
    match ft
    case Scalar(_) => true
    case StructOf(s) =>
      v.Struct? && s < |schema| ==>
        Bases(v.body) + 1 >= Depth(schema, s) && EnoughLevels(schema, s, v.body)
    case ContainerOf(_, elem) => v.List? ==> EnoughItems(schema, elem, v.items)
    case MapOf(key, elem) => v.Map? ==> EnoughEntries(schema, key, elem, v.entries)
  }

  predicate EnoughItems(schema: Schema, elem: FieldType, items: Items)
    decreases SizeOfItems(items), 0, 0
  {
    items.Item? ==> Enough(schema, elem, items.head) && EnoughItems(schema, elem, items.tail)
  }

  predicate EnoughEntries(schema: Schema, key: FieldType, elem: FieldType, entries: Entries)
    decreases SizeOfEntries(entries), 0, 0
  {
    entries.Entry? ==>
      && Enough(schema, key, entries.key) && Enough(schema, elem, entries.value)
      && EnoughEntries(schema, key, elem, entries.rest)
  }

  predicate EnoughLevels(schema: Schema, s: nat, body: Body)
    requires s < |schema|
    decreases SizeOfBody(body), 3, s
  {
    match Base(schema, s)
    case None => EnoughLevel(schema, schema[s].fields, body)
    case Some(base) =>
      && EnoughLevels(schema, base, body)
      && match AfterBase(schema, base, body)
         case None => true
         case Some(rest) => EnoughLevel(schema, schema[s].fields, rest)
  }

  predicate EnoughLevel(schema: Schema, fields: Fields, body: Body)
    decreases SizeOfBody(body), 2, 0
  {
    body.Field? ==> EnoughField(schema, fields, body.id, body.value) && EnoughLevel(schema, fields, body.next)
  }

  predicate EnoughField(schema: Schema, fields: Fields, id: nat, v: Value)
    decreases SizeOf(v), 1, fields
  {
    match fields
    case NoFields => true
    case FieldDef(id', _, ft, rest) => (id' == id ==> Enough(schema, ft, v)) && EnoughField(schema, rest, id, v)
  }

  lemma {:induction false} EnoughFewer(schema: Schema, fields: Fields, body: Body)
    requires fields.FieldDef? && EnoughLevel(schema, fields, body)
    ensures EnoughLevel(schema, fields.rest, body)
    decreases body
  {
    if body.Field? {
      EnoughFewer(schema, fields, body.next);
    }
  }

  // -------------------------------------------------------------- what is written from an object

  /** `v` is written from an object of type `ft`: all levels, with some of their fields in schema order. */
  predicate Made(schema: Schema, ft: FieldType, v: Value)
    decreases SizeOf(v), 0, 0
  {
    match ft
    case Scalar(t) => (v.Num? || v.Raw?) && v.t == t
    case StructOf(s) => v.Struct? && s < |schema| && MadeLevels(schema, s, v.body) == Some(Stop)
    case ContainerOf(t, elem) => v.List? && v.t == t && v.elem == BondType(elem) && MadeItems(schema, elem, v.items)
    case MapOf(key, elem) =>
      && v.Map? && v.key == BondType(key) && v.elem == BondType(elem)
      && MadeEntries(schema, key, elem, v.entries)
  }

  predicate MadeItems(schema: Schema, elem: FieldType, items: Items)
    decreases SizeOfItems(items), 0, 0
  {
    items.Item? ==> Made(schema, elem, items.head) && MadeItems(schema, elem, items.tail)
  }

  predicate MadeEntries(schema: Schema, key: FieldType, elem: FieldType, entries: Entries)
    decreases SizeOfEntries(entries), 0, 0
  {
    entries.Entry? ==>
      && Made(schema, key, entries.key) && Made(schema, elem, entries.value)
      && MadeEntries(schema, key, elem, entries.rest)
  }

  /** What follows the levels of `s`, if `body` starts with them. */
  function MadeLevels(schema: Schema, s: nat, body: Body): (r: Option<Body>)
    requires s < |schema|
    ensures r.Some? ==> SizeOfBody(r.value) <= SizeOfBody(body)
    decreases SizeOfBody(body), 2, s
  {
    match Base(schema, s)
    case None => MadeLevel(schema, schema[s].fields, body)
    case Some(base) =>
      match MadeLevels(schema, base, body)
      case Some(StopBase(next)) => MadeLevel(schema, schema[s].fields, next)
      case _ => None
  }

  function MadeLevel(schema: Schema, fields: Fields, body: Body): (r: Option<Body>)
    ensures r.Some? ==> SizeOfBody(r.value) <= SizeOfBody(body) && !r.value.Field?
    decreases SizeOfBody(body), 1, fields
  {
    match fields
    case NoFields => if body.Field? then None else Some(body)
    case FieldDef(id, _, ft, rest) =>
      if body.Field? && body.id == id then
        if Made(schema, ft, body.value) then MadeLevel(schema, rest, body.next) else None
      else MadeLevel(schema, rest, body)
  }

  /** What is written has levels enough for its type. */
  lemma {:induction false} MadeEnough(schema: Schema, ft: FieldType, v: Value)
    requires Regular(schema) && Made(schema, ft, v)
    ensures Enough(schema, ft, v)
    decreases SizeOf(v), 0, 0
  {
    hide MadeItems, MadeEntries, MadeLevels, EnoughItems, EnoughEntries, EnoughLevels, Regular;
    match ft
    case Scalar(_) =>
    case StructOf(s) => MadeLevelsEnough(schema, s, v.body);
    case ContainerOf(_, elem) => MadeItemsEnough(schema, elem, v.items);
    case MapOf(key, elem) => MadeEntriesEnough(schema, key, elem, v.entries);
  }

  lemma {:induction false} MadeItemsEnough(schema: Schema, elem: FieldType, items: Items)
    requires Regular(schema) && MadeItems(schema, elem, items)
    ensures EnoughItems(schema, elem, items)
    decreases SizeOfItems(items), 0, 0
  {
    hide Made, Enough, Regular;
    if items.Item? {
      MadeEnough(schema, elem, items.head);
      MadeItemsEnough(schema, elem, items.tail);
    }
  }

  lemma {:induction false} MadeEntriesEnough(schema: Schema, key: FieldType, elem: FieldType, entries: Entries)
    requires Regular(schema) && MadeEntries(schema, key, elem, entries)
    ensures EnoughEntries(schema, key, elem, entries)
    decreases SizeOfEntries(entries), 0, 0
  {
    hide Made, Enough, Regular;
    if entries.Entry? {
      MadeEnough(schema, key, entries.key);
      MadeEnough(schema, elem, entries.value);
      MadeEntriesEnough(schema, key, elem, entries.rest);
    }
  }

  lemma {:induction false} MadeLevelsEnough(schema: Schema, s: nat, body: Body)
    requires Regular(schema) && s < |schema| && MadeLevels(schema, s, body).Some?
    ensures var rest := MadeLevels(schema, s, body).value;
            && EnoughLevels(schema, s, body) && Bases(body) == Depth(schema, s) - 1 + Bases(rest)
            && (rest.StopBase? ==> AfterBase(schema, s, body) == Some(rest.next))
    decreases SizeOfBody(body), 2, s
  {
    hide MadeLevel, EnoughLevel;
    assert Sorted(schema[s].fields);
    hide Regular;
    match Base(schema, s)
    case None => MadeLevelEnough(schema, schema[s].fields, schema[s].fields, body);
    case Some(base) =>
      MadeLevelsEnough(schema, base, body);
      MadeLevelEnough(schema, schema[s].fields, schema[s].fields, MadeLevels(schema, base, body).value.next);
  }

  /** `fields` is the end of `all`. */
  predicate EndOf(fields: Fields, all: Fields) {
    fields == all || (all.FieldDef? && EndOf(fields, all.rest))
  }

  lemma {:induction false} EndOfRest(fields: Fields, all: Fields)
    requires EndOf(fields, all) && fields.FieldDef?
    ensures EndOf(fields.rest, all)
    decreases all
  {
    if fields != all {
      EndOfRest(fields, all.rest);
    }
  }

  /** A sorted schema has an identifier once. */
  lemma {:induction false} EnoughOnce(schema: Schema, fields: Fields, all: Fields, v: Value)
    requires Sorted(all) && EndOf(fields, all) && fields.FieldDef? && Enough(schema, fields.ft, v)
    ensures EnoughField(schema, all, fields.id, v)
    decreases all
  {
    hide Enough;
    if fields == all {
      EnoughElsewhere(schema, all.rest, fields.id, v);
    } else {
      EndLarger(fields, all);
      EnoughOnce(schema, fields, all.rest, v);
    }
  }

  lemma {:induction false} EndLarger(fields: Fields, all: Fields)
    requires Sorted(all) && EndOf(fields, all) && fields.FieldDef? && fields != all
    ensures all.id < fields.id
    decreases all
  {
    if fields != all.rest {
      EndLarger(fields, all.rest);
    }
  }

  lemma {:induction false} EnoughElsewhere(schema: Schema, fields: Fields, id: nat, v: Value)
    requires Sorted(fields) && (fields.FieldDef? ==> id < fields.id)
    ensures EnoughField(schema, fields, id, v)
    decreases fields
  {
    hide Enough;
    if fields.FieldDef? {
      EnoughElsewhere(schema, fields.rest, id, v);
    }
  }

  lemma {:induction false} MadeLevelEnough(schema: Schema, fields: Fields, all: Fields, body: Body)
    requires Regular(schema) && Sorted(all) && EndOf(fields, all) && MadeLevel(schema, fields, body).Some?
    ensures var rest := MadeLevel(schema, fields, body).value;
            && EnoughLevel(schema, all, body) && Bases(body) == Bases(rest)
            && LevelEnd(body, true) == if rest.StopBase? then Some(rest.next) else None
    decreases SizeOfBody(body), 1, fields
  {
    hide Made, Enough, Regular, EnoughField;
    if fields.FieldDef? {
      EndOfRest(fields, all);
      if body.Field? && body.id == fields.id {
        MadeEnough(schema, fields.ft, body.value);
        EnoughOnce(schema, fields, all, body.value);
        MadeLevelEnough(schema, fields.rest, all, body.next);
      } else {
        MadeLevelEnough(schema, fields.rest, all, body);
      }
    }
  }

  /** So has what is written from an object of a derived struct, for each of its bases. */
  lemma {:induction false} DerivedEnough(schema: Schema, s: nat, d: nat, body: Body)
    requires Regular(schema) && s < |schema| && d < |schema| && Ancestor(schema, s, d)
    requires MadeLevels(schema, d, body).Some?
    ensures EnoughLevels(schema, s, body) && Bases(body) + 1 >= Depth(schema, s)
    decreases d
  {
    hide Regular, MadeLevel, EnoughLevel;
    if s == d {
      MadeLevelsEnough(schema, s, body);
    } else {
      DerivedEnough(schema, s, Base(schema, d).value, body);
    }
  }

  lemma SlicedEnough(schema: Schema, s: nat, d: nat, v: Value)
    requires Regular(schema) && s < |schema| && d < |schema| && Ancestor(schema, s, d)
    requires Made(schema, StructOf(d), v)
    ensures Enough(schema, StructOf(s), v)
  {
    hide Regular, MadeLevels, EnoughLevels;
    DerivedEnough(schema, s, d, v.body);
  }
}
