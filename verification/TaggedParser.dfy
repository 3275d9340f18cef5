/** The C# deserializer at work on a tagged payload: what `Deserialization.Decode` says of a value is
    what the generated loops do with its bytes, and where they stop. */
module TaggedParser {
  import opened Bytes
  import opened Wire
  import opened Grammar
  import opened Deserialization
  import opened Reader
  import opened StopMarkers
  import opened Levels
  import RoundTrip
  import SimpleBinary
  import FieldMerge
  import Required
  import Failures
  import Slicing

  /** The outcome `ok`, `effects` is that of the decoder; that it does not succeed more often is
      promised if there are levels `enough`. */
  ghost predicate Gives(enough: bool, d: Option<seq<Effect>>, ok: bool, effects: seq<Effect>) {
    (d.Some? ==> ok && effects == d.value) && (enough && d == None ==> !ok)
  }

  /** Reading from `pos` to `end` is what the decoder says of the value there and of the identifiers that
      its stop markers carry. */
  ghost predicate ReadAs(p: Protocol, data: seq<byte>, schema: Schema, ft: FieldType, t: byte,
                         pos: nat, ok: bool, end: nat, effects: seq<Effect>) {
    match ParseValue(p, t, data, pos)
    case None => true
    case Some((v, next)) =>
      var d := DecodeWith(schema, ft, v, MarksAt(p, t, data, pos));
      Gives(Enough(schema, ft, v), d, ok, effects) && (d.Some? ==> end == next)
  }

  // ------------------------------------------------------------------ the methods

  /** Reads a value of type `t` into a variable of type `ft`. */
  method ReadValue(r: TaggedReader, schema: Schema, ft: FieldType, t: byte)
    returns (ok: bool, effects: seq<Effect>)
    modifies r
    ensures ReadAs(r.protocol, r.data, schema, ft, t, old(r.position), ok, r.position, effects)
    ensures ok ==> old(r.position) < r.position <= |r.data|
    decreases if r.position < |r.data| then |r.data| - r.position else 0, 3
  {
    hide Enough, DecodeWith, MarksAt, ParseValue;
    effects := [];
    match ft
    case Scalar(expected) =>
      ok := Compatible(expected, t) && (Numeric(t) || Opaque(t));
      if ok {
        ok, effects := ReadScalar(r, schema, expected, t);
      } else {
        NotScalar(r, schema, expected, t);
      }
    case StructOf(s) =>
      ok := t == BT_STRUCT && s < |schema|;
      if ok {
        ok, effects := ReadStruct(r, schema, s);
      } else {
        NotStruct(r, schema, s, t);
      }
    case ContainerOf(expected, elem) =>
      ok := t == expected && (t == BT_LIST || t == BT_SET);
      if ok {
        ok, effects := ReadContainer(r, schema, t, elem);
      } else {
        NotContainer(r, schema, expected, elem, t);
      }
    case MapOf(key, elem) =>
      ok := t == BT_MAP;
      if ok {
        ok, effects := ReadMap(r, schema, key, elem);
      } else {
        NotMap(r, schema, key, elem, t);
      }
  }

  lemma NotScalar(r: TaggedReader, schema: Schema, expected: byte, t: byte)
    requires !Compatible(expected, t) || !(Numeric(t) || Opaque(t))
    ensures ReadAs(r.protocol, r.data, schema, Scalar(expected), t, r.position, false, r.position, [])
  {
  }

  lemma NotStruct(r: TaggedReader, schema: Schema, s: nat, t: byte)
    requires t != BT_STRUCT || s >= |schema|
    ensures ReadAs(r.protocol, r.data, schema, StructOf(s), t, r.position, false, r.position, [])
  {
  }

  lemma NotContainer(r: TaggedReader, schema: Schema, expected: byte, elem: FieldType, t: byte)
    requires t != expected || (t != BT_LIST && t != BT_SET)
    ensures ReadAs(r.protocol, r.data, schema, ContainerOf(expected, elem), t, r.position, false, r.position, [])
  {
  }

  lemma NotMap(r: TaggedReader, schema: Schema, key: FieldType, elem: FieldType, t: byte)
    requires t != BT_MAP
    ensures ReadAs(r.protocol, r.data, schema, MapOf(key, elem), t, r.position, false, r.position, [])
  {
  }

  method ReadScalar(r: TaggedReader, ghost schema: Schema, ghost expected: byte, t: byte)
    returns (ok: bool, effects: seq<Effect>)
    requires Compatible(expected, t) && (Numeric(t) || Opaque(t))
    modifies r
    ensures ReadAs(r.protocol, r.data, schema, Scalar(expected), t, old(r.position), ok, r.position, effects)
    ensures ok ==> old(r.position) < r.position <= |r.data|
  {
    hide Compatible, ParseNum, ParseRaw;
    effects := [];
    if Numeric(t) {
      var n := r.ReadNum(t);
      ok := n.Some?;
      if ok {
        effects := [Leaf(Num(t, n.value))];
      }
    } else {
      var raw := r.ReadRaw(t);
      ok := raw.Some?;
      if ok {
        effects := [Leaf(Raw(t, raw.value))];
      }
    }
  }

  // --------------------------------------------------------------- containers

  ghost predicate ItemsRead(p: Protocol, data: seq<byte>, schema: Schema, ft: FieldType, t: byte,
                            count: nat, pos: nat, ok: bool, end: nat, effects: seq<Effect>) {
    match ParseItems(p, t, count, data, pos)
    case None => true
    case Some((items, next)) =>
      var d := DecodeItemsWith(schema, ft, items, MarksOfItems(p, t, count, data, pos));
      Gives(EnoughItems(schema, ft, items), d, ok, effects) && (d.Some? ==> end == next)
  }

  /** `effects` so far and the items still in the payload make up the whole container. */
  ghost predicate ItemsLeft(p: Protocol, data: seq<byte>, schema: Schema, ft: FieldType, t: byte,
                            total: nat, start: nat, count: nat, pos: nat, effects: seq<Effect>) {
    match ParseItems(p, t, total, data, start)
    case None => true
    case Some((all, end)) =>
      var enough := EnoughItems(schema, ft, all);
      var d := DecodeItemsWith(schema, ft, all, MarksOfItems(p, t, total, data, start));
      enough || d.Some? ==>
        match ParseItems(p, t, count, data, pos)
        case None => false
        case Some((rest, end')) =>
          && end == end' && (enough ==> EnoughItems(schema, ft, rest))
          && d == Then(Some(effects), DecodeItemsWith(schema, ft, rest, MarksOfItems(p, t, count, data, pos)))
  }

  lemma ItemRead(p: Protocol, data: seq<byte>, schema: Schema, ft: FieldType, t: byte, total: nat, start: nat,
                 count: nat, pos: nat, effects: seq<Effect>, ok: bool, next: nat, more: seq<Effect>)
    requires ItemsLeft(p, data, schema, ft, t, total, start, count, pos, effects) && count > 0
    requires ReadAs(p, data, schema, ft, t, pos, ok, next, more)
    ensures ok ==> ItemsLeft(p, data, schema, ft, t, total, start, count - 1, next, effects + more)
    ensures !ok ==> ItemsRead(p, data, schema, ft, t, total, start, false, next, [])
  {
    hide ParseValue, DecodeWith, MarksAt, Enough;
    var all := ParseItems(p, t, total, data, start);
    var left := ParseItems(p, t, count, data, pos);
    if all.Some? && left.Some? {
      var after := MarksOfItems(p, t, count - 1, data, ParseValue(p, t, data, pos).value.1);
      var tail := DecodeItemsWith(schema, ft, left.value.0.tail, after);
      if tail.Some? {
        assert effects + (more + tail.value) == effects + more + tail.value;
      }
    }
  }

  method ReadItems(r: TaggedReader, schema: Schema, ft: FieldType, t: byte, count: nat)
    returns (ok: bool, effects: seq<Effect>)
    requires r.position <= |r.data|
    modifies r
    ensures ItemsRead(r.protocol, r.data, schema, ft, t, count, old(r.position), ok, r.position, effects)
    ensures ok ==> old(r.position) <= r.position <= |r.data|
    decreases if r.position < |r.data| then |r.data| - r.position else 0, 4
  {
    hide ReadAs, ItemsRead, ItemsLeft;
    ghost var p, data, start := r.protocol, r.data, r.position;
    AllItemsLeft(p, data, schema, ft, t, count, start);
    var left := count;
    ok, effects := true, [];
    while left > 0
      invariant start <= r.position <= |data|
      invariant ItemsLeft(p, data, schema, ft, t, count, start, left, r.position, effects)
    {
      var more;
      ghost var pos := r.position;
      ok, more := ReadValue(r, schema, ft, t);
      ItemRead(p, data, schema, ft, t, count, start, left, pos, effects, ok, r.position, more);
      if !ok {
        return false, [];
      }
      effects := effects + more;
      left := left - 1;
    }
    NoItemsLeft(p, data, schema, ft, t, count, start, r.position, effects);
  }

  lemma AllItemsLeft(p: Protocol, data: seq<byte>, schema: Schema, ft: FieldType, t: byte, count: nat,
                     start: nat)
    ensures ItemsLeft(p, data, schema, ft, t, count, start, count, start, [])
  {
    hide ParseItems, DecodeItemsWith, MarksOfItems, EnoughItems;
    assert forall e: seq<Effect> :: [] + e == e;
  }

  lemma NoItemsLeft(p: Protocol, data: seq<byte>, schema: Schema, ft: FieldType, t: byte, count: nat,
                    start: nat,
                    pos: nat, effects: seq<Effect>)
    requires ItemsLeft(p, data, schema, ft, t, count, start, 0, pos, effects)
    ensures ItemsRead(p, data, schema, ft, t, count, start, true, pos, effects)
  {
    assert effects + [] == effects;
  }

  method ReadContainer(r: TaggedReader, schema: Schema, t: byte, ft: FieldType)
    returns (ok: bool, effects: seq<Effect>)
    requires (t == BT_LIST || t == BT_SET)
    modifies r
    ensures ReadAs(r.protocol, r.data, schema, ContainerOf(t, ft), t, old(r.position), ok, r.position, effects)
    ensures ok ==> old(r.position) < r.position <= |r.data|
    decreases if r.position < |r.data| then |r.data| - r.position else 0, 2
  {
    hide Compatible, ParseListHeader, ParseItems, DecodeItemsWith, MarksOfItems, EnoughItems;
    effects := [];
    var header := r.ReadListBegin();
    if header == None {
      return false, [];
    }
    var (elem, count) := header.value;
    if count > INT_MAX || !Compatible(BondType(ft), elem) {
      return false, [];
    }
    ok, effects := ReadItems(r, schema, ft, elem, count);
    effects := [Resize(count)] + effects;
  }

  ghost predicate EntriesRead(p: Protocol, data: seq<byte>, schema: Schema, key: FieldType, elem: FieldType, kt: byte,
                              et: byte, count: nat, pos: nat, ok: bool, end: nat, effects: seq<Effect>) {
    match ParseEntries(p, kt, et, count, data, pos)
    case None => true
    case Some((entries, next)) =>
      var d := DecodeEntriesWith(schema, key, elem, entries, MarksOfEntries(p, kt, et, count, data, pos));
      Gives(EnoughEntries(schema, key, elem, entries), d, ok, effects) && (d.Some? ==> end == next)
  }

  ghost predicate EntriesLeft(p: Protocol, data: seq<byte>, schema: Schema, key: FieldType, elem: FieldType, kt: byte,
                              et: byte, total: nat, start: nat, count: nat, pos: nat, effects: seq<Effect>) {
    match ParseEntries(p, kt, et, total, data, start)
    case None => true
    case Some((all, end)) =>
      var enough := EnoughEntries(schema, key, elem, all);
      var d := DecodeEntriesWith(schema, key, elem, all, MarksOfEntries(p, kt, et, total, data, start));
      enough || d.Some? ==>
        match ParseEntries(p, kt, et, count, data, pos)
        case None => false
        case Some((rest, end')) =>
          && end == end' && (enough ==> EnoughEntries(schema, key, elem, rest))
          && d == Then(Some(effects),
                       DecodeEntriesWith(schema, key, elem, rest, MarksOfEntries(p, kt, et, count, data, pos)))
  }

  lemma NextEntry(p: Protocol, kt: byte, et: byte, count: nat, data: seq<byte>, pos: nat)
    requires count > 0 && ParseEntries(p, kt, et, count, data, pos).Some?
    ensures ParseValue(p, kt, data, pos).Some?
    ensures var (k, mid) := ParseValue(p, kt, data, pos).value;
            ParseValue(p, et, data, mid).Some? &&
            var (v, next) := ParseValue(p, et, data, mid).value;
            var (entries, end) := ParseEntries(p, kt, et, count, data, pos).value;
            && entries.Entry? && entries.key == k && entries.value == v
            && ParseEntries(p, kt, et, count - 1, data, next) == Some((entries.rest, end))
            && MarksOfEntries(p, kt, et, count, data, pos)
               == Both(MarksAt(p, kt, data, pos),
                       Both(MarksAt(p, et, data, mid), MarksOfEntries(p, kt, et, count - 1, data, next)))
  {
    hide ParseValue, MarksAt;
  }

  lemma EntryRead(p: Protocol, data: seq<byte>, schema: Schema, key: FieldType, elem: FieldType, kt: byte, et: byte,
                  total: nat, start: nat, count: nat, pos: nat, effects: seq<Effect>,
                  mid: nat, first: seq<Effect>, next: nat, second: seq<Effect>)
    requires EntriesLeft(p, data, schema, key, elem, kt, et, total, start, count, pos, effects) && count > 0
    requires ReadAs(p, data, schema, key, kt, pos, true, mid, first)
    requires ReadAs(p, data, schema, elem, et, mid, true, next, second)
    ensures EntriesLeft(p, data, schema, key, elem, kt, et, total, start, count - 1, next, effects + first + second)
  {
    hide ParseValue, DecodeWith, MarksAt, Enough, ParseEntries, MarksOfEntries;
    var all := ParseEntries(p, kt, et, total, data, start);
    var left := ParseEntries(p, kt, et, count, data, pos);
    if all.Some? && left.Some? {
      NextEntry(p, kt, et, count, data, pos);
      var after := MarksOfEntries(p, kt, et, count - 1, data, next);
      ThenPair(effects, first, second, DecodeEntriesWith(schema, key, elem, left.value.0.rest, after));
    }
  }

  lemma ThenPair(effects: seq<Effect>, first: seq<Effect>, second: seq<Effect>, tail: Option<seq<Effect>>)
    ensures Then(Some(effects), Then(Some(first), Then(Some(second), tail)))
         == Then(Some(effects + first + second), tail)
  {
    if tail.Some? {
      assert effects + (first + (second + tail.value)) == effects + first + second + tail.value;
    }
  }

  lemma EntryFails(p: Protocol, data: seq<byte>, schema: Schema, key: FieldType, elem: FieldType, kt: byte, et: byte,
                   total: nat, start: nat, count: nat, pos: nat, effects: seq<Effect>,
                   okKey: bool, mid: nat, first: seq<Effect>, next: nat, second: seq<Effect>)
    requires EntriesLeft(p, data, schema, key, elem, kt, et, total, start, count, pos, effects) && count > 0
    requires ReadAs(p, data, schema, key, kt, pos, okKey, mid, first)
    requires okKey ==> ReadAs(p, data, schema, elem, et, mid, false, next, second)
    ensures EntriesRead(p, data, schema, key, elem, kt, et, total, start, false, next, [])
  {
    hide ParseValue, DecodeWith, MarksAt, Enough;
  }

  method ReadEntries(r: TaggedReader, schema: Schema, key: FieldType, elem: FieldType, kt: byte, et: byte, count: nat)
    returns (ok: bool, effects: seq<Effect>)
    requires r.position <= |r.data|
    modifies r
    ensures EntriesRead(r.protocol, r.data, schema, key, elem, kt, et, count, old(r.position), ok,
                        r.position, effects)
    ensures ok ==> old(r.position) <= r.position <= |r.data|
    decreases if r.position < |r.data| then |r.data| - r.position else 0, 4
  {
    hide ReadAs, EntriesRead, EntriesLeft;
    ghost var p, data, start := r.protocol, r.data, r.position;
    AllEntriesLeft(p, data, schema, key, elem, kt, et, count, start);
    var left := count;
    ok, effects := true, [];
    while left > 0
      invariant start <= r.position <= |data|
      invariant EntriesLeft(p, data, schema, key, elem, kt, et, count, start, left, r.position, effects)
    {
      var first, second := [], [];
      ghost var pos := r.position;
      ok, first := ReadValue(r, schema, key, kt);
      ghost var okKey, mid := ok, r.position;
      if ok {
        ok, second := ReadValue(r, schema, elem, et);
      }
      if !ok {
        EntryFails(p, data, schema, key, elem, kt, et, count, start, left, pos, effects, okKey, mid, first,
                   r.position, second);
        return false, [];
      }
      EntryRead(p, data, schema, key, elem, kt, et, count, start, left, pos, effects, mid, first, r.position,
                second);
      effects := effects + first + second;
      left := left - 1;
    }
    NoEntriesLeft(p, data, schema, key, elem, kt, et, count, start, r.position, effects);
  }

  lemma AllEntriesLeft(p: Protocol, data: seq<byte>, schema: Schema, key: FieldType, elem: FieldType, kt: byte,
                       et: byte,
                       count: nat, start: nat)
    ensures EntriesLeft(p, data, schema, key, elem, kt, et, count, start, count, start, [])
  {
    hide ParseEntries, DecodeEntriesWith, MarksOfEntries, EnoughEntries;
    assert forall e: seq<Effect> :: [] + e == e;
  }

  lemma NoEntriesLeft(p: Protocol, data: seq<byte>, schema: Schema, key: FieldType, elem: FieldType, kt: byte, et: byte,
                      count: nat, start: nat, pos: nat, effects: seq<Effect>)
    requires EntriesLeft(p, data, schema, key, elem, kt, et, count, start, 0, pos, effects)
    ensures EntriesRead(p, data, schema, key, elem, kt, et, count, start, true, pos, effects)
  {
    assert effects + [] == effects;
  }

  method ReadMap(r: TaggedReader, schema: Schema, key: FieldType, elem: FieldType)
    returns (ok: bool, effects: seq<Effect>)
    modifies r
    ensures ReadAs(r.protocol, r.data, schema, MapOf(key, elem), BT_MAP, old(r.position), ok, r.position, effects)
    ensures ok ==> old(r.position) < r.position <= |r.data|
    decreases if r.position < |r.data| then |r.data| - r.position else 0, 2
  {
    hide Compatible, ParseMapHeader, ParseEntries, DecodeEntriesWith, MarksOfEntries, EnoughEntries;
    effects := [];
    var header := r.ReadMapBegin();
    if header == None {
      return false, [];
    }
    var (kt, et, count) := header.value;
    if count > INT_MAX || !Compatible(BondType(key), kt) || !Compatible(BondType(elem), et) {
      return false, [];
    }
    ok, effects := ReadEntries(r, schema, key, elem, kt, et, count);
    effects := [Resize(count)] + effects;
  }

  // ------------------------------------------------------------------- structs

  /** After a level the reader stands before the next one, whose markers are `left`, or behind the struct. */
  ghost predicate Behind(p: Protocol, data: seq<byte>, isBase: bool, rest: Body, left: Marks, stop: nat, end: nat) {
    if isBase then ParseBody(p, data, end) == Some((rest, stop)) && MarksOfBody(p, data, end) == left
    else end == stop
  }

  /** The fields of a level from `fields` on, the header `t`, `id` read, from `pos` to `end`. */
  ghost predicate RestRead(p: Protocol, data: seq<byte>, schema: Schema, s: nat, fields: Fields, isBase: bool,
                           t: byte, id: nat, pos: nat, ok: bool, end: nat, effects: seq<Effect>) {
    match ParseAfterHeader(p, t, id, data, pos)
    case None => true
    case Some((body, stop)) =>
      match DecodeLevelWith(schema, s, fields, body, isBase, MarksAfter(p, t, id, data, pos))
      case Some((e, rest, left)) => ok && effects == e && Behind(p, data, isBase, rest, left, stop, end)
      case None => EnoughLevel(schema, fields, body) && (isBase ==> Slicing.Bases(body) >= 1) ==> !ok
  }

  /** The reader has passed over unknown fields, from header `t0`, `id0` to `t`, `id`. */
  ghost predicate Passed(p: Protocol, data: seq<byte>, isBase: bool,
                         t0: byte, id0: nat, pos0: nat, t: byte, id: nat, pos: nat) {
    match ParseAfterHeader(p, t0, id0, data, pos0)
    case None => true
    case Some((body, stop)) =>
      match ParseAfterHeader(p, t, id, data, pos)
      case None => false
      case Some((now, stop')) =>
        && stop == stop' && (isBase ==> Slicing.Bases(now) == Slicing.Bases(body))
        && LevelEndWith(now, MarksAfter(p, t, id, data, pos), isBase)
           == LevelEndWith(body, MarksAfter(p, t0, id0, data, pos0), isBase)
  }

  /** One field on. */
  lemma FieldOn(p: Protocol, data: seq<byte>, t: byte, id: nat, pos: nat, mid: nat, t': byte, id': nat, next: nat)
    requires t > BT_STOP_BASE && ParseValue(p, t, data, pos).Some? && ParseValue(p, t, data, pos).value.1 == mid
    requires ParseFieldHeader(p, data, mid) == Some((t', id', next))
    ensures MarksAfter(p, t, id, data, pos) == Both(MarksAt(p, t, data, pos), MarksAfter(p, t', id', data, next))
  {
    hide ParseValue, ParseFieldHeader, MarksAt;
    assert MarksOfBody(p, data, mid) == MarksAfter(p, t', id', data, next);
  }

  lemma BaseOn(p: Protocol, data: seq<byte>, id: nat, pos: nat)
    ensures match ParseFieldHeader(p, data, pos)
            case None => true
            case Some((t', id', next)) =>
              MarksAfter(p, BT_STOP_BASE, id, data, pos) == Mark(id, MarksAfter(p, t', id', data, next))
  {
    hide ParseFieldHeader;
    assert MarksAfter(p, BT_STOP_BASE, id, data, pos) == Mark(id, MarksOfBody(p, data, pos));
  }

  /** Passing over the field with header `t`, `id`, or over the end of a base if this is not one. */
  lemma PassOne(p: Protocol, data: seq<byte>, isBase: bool, t0: byte, id0: nat, pos0: nat,
                t: byte, id: nat, pos: nat, ok: bool, mid: nat)
    requires Passed(p, data, isBase, t0, id0, pos0, t, id, pos)
    requires t != BT_STOP && (t == BT_STOP_BASE ==> !isBase && ok && mid == pos)
    requires t != BT_STOP_BASE ==>
               match ParseValue(p, t, data, pos) case None => true case Some((_, next)) => ok && mid == next
    ensures !ok ==> ParseAfterHeader(p, t0, id0, data, pos0) == None
    ensures ok ==>
              match ParseFieldHeader(p, data, mid)
              case None => ParseAfterHeader(p, t0, id0, data, pos0) == None
              case Some((t', id', next)) => Passed(p, data, isBase, t0, id0, pos0, t', id', next)
  {
    hide ParseValue, ParseFieldHeader;
    var whole := ParseAfterHeader(p, t0, id0, data, pos0);
    if whole.Some? {
      var now := ParseAfterHeader(p, t, id, data, pos).value.0;
      assert now != Stop && ParseBody(p, data, mid).Some?;
      var (t', id', next) := ParseFieldHeader(p, data, mid).value;
      if t != BT_STOP_BASE {
        FieldOn(p, data, t, id, pos, mid, t', id', next);
      } else {
        BaseOn(p, data, id, pos);
      }
    }
  }

  method SkipRest(r: TaggedReader, ghost schema: Schema, ghost s: nat, isBase: bool, t0: byte, id0: nat)
    returns (ok: bool)
    requires r.position <= |r.data|
    modifies r
    ensures RestRead(r.protocol, r.data, schema, s, NoFields, isBase, t0, id0, old(r.position), ok, r.position, [])
    ensures ok ==> old(r.position) <= r.position <= |r.data|
  {
    hide Passed, RestRead, ParseValue, ParseFieldHeader;
    ghost var p, data, start := r.protocol, r.data, r.position;
    StartsPassing(p, data, isBase, t0, id0, start);
    var t: byte, id: nat := t0, id0;
    while t != BT_STOP && (!isBase || t != BT_STOP_BASE)
      invariant start <= r.position <= |data|
      invariant Passed(p, data, isBase, t0, id0, start, t, id, r.position)
      decreases |data| - r.position
    {
      ghost var pos := r.position;
      ok := true;
      if t != BT_STOP_BASE {
        ok := r.Skip(t);
      }
      PassOne(p, data, isBase, t0, id0, start, t, id, pos, ok, r.position);
      if !ok {
        NoLevel(p, data, schema, s, NoFields, isBase, t0, id0, start, r.position);
        return;
      }
      var header := r.ReadFieldBegin();
      if header == None {
        NoLevel(p, data, schema, s, NoFields, isBase, t0, id0, start, r.position);
        return false;
      }
      t, id := header.value.0, header.value.1;
    }
    ok := true;
    LevelPassed(p, data, schema, s, isBase, t0, id0, start, t, id, r.position);
  }

  lemma StartsPassing(p: Protocol, data: seq<byte>, isBase: bool, t: byte, id: nat, pos: nat)
    ensures Passed(p, data, isBase, t, id, pos, t, id, pos)
  {
  }

  lemma NoLevel(p: Protocol, data: seq<byte>, schema: Schema, s: nat, fields: Fields, isBase: bool,
                t: byte, id: nat, pos: nat, end: nat)
    requires ParseAfterHeader(p, t, id, data, pos) == None
    ensures RestRead(p, data, schema, s, fields, isBase, t, id, pos, false, end, [])
  {
  }

  lemma LevelPassed(p: Protocol, data: seq<byte>, schema: Schema, s: nat, isBase: bool,
                    t0: byte, id0: nat, pos0: nat, t: byte, id: nat, pos: nat)
    requires Passed(p, data, isBase, t0, id0, pos0, t, id, pos)
    requires t == BT_STOP || (isBase && t == BT_STOP_BASE)
    ensures RestRead(p, data, schema, s, NoFields, isBase, t0, id0, pos0, true, pos, [])
  {
    hide ParseValue, ParseFieldHeader;
  }

  /** The loop for the first of `fields` has passed over unknown fields; it ends at once when the
      next header's identifier is `over` that of the field. */
  ghost predicate Skipped(p: Protocol, data: seq<byte>, schema: Schema, s: nat, fields: Fields, isBase: bool,
                          t0: byte, id0: nat, pos0: nat, t: byte, id: nat, pos: nat, over: bool)
    requires fields.FieldDef?
  {
    && Passed(p, data, isBase, t0, id0, pos0, t, id, pos)
    && match (ParseAfterHeader(p, t0, id0, data, pos0), ParseAfterHeader(p, t, id, data, pos))
       case (Some((body, _)), Some((now, _))) =>
         && (EnoughLevel(schema, fields, body) ==> EnoughLevel(schema, fields, now))
         && DecodeLevelWith(schema, s, fields, body, isBase, MarksAfter(p, t0, id0, data, pos0))
            == DecodeLevelWith(schema, s, if over then fields.rest else fields, now, isBase,
                               MarksAfter(p, t, id, data, pos))
       case _ => true
  }

  lemma StartsSkipping(p: Protocol, data: seq<byte>, schema: Schema, s: nat, fields: Fields, isBase: bool,
                       t: byte, id: nat, pos: nat)
    requires fields.FieldDef?
    ensures Skipped(p, data, schema, s, fields, isBase, t, id, pos, t, id, pos, false)
  {
    hide DecodeLevel;
    StartsPassing(p, data, isBase, t, id, pos);
  }

  /** Passing over one unknown field. */
  lemma SkipOne(p: Protocol, data: seq<byte>, schema: Schema, s: nat, fields: Fields, isBase: bool,
                t0: byte, id0: nat, pos0: nat, t: byte, id: nat, pos: nat, ok: bool, mid: nat)
    requires fields.FieldDef? && t > BT_STOP_BASE && id < fields.id
    requires Skipped(p, data, schema, s, fields, isBase, t0, id0, pos0, t, id, pos, false)
    requires match ParseValue(p, t, data, pos) case None => true case Some((_, next)) => ok && mid == next
    ensures !ok ==> ParseAfterHeader(p, t0, id0, data, pos0) == None
    ensures ok ==>
              match ParseFieldHeader(p, data, mid)
              case None => ParseAfterHeader(p, t0, id0, data, pos0) == None
              case Some((t', id', next)) =>
                Skipped(p, data, schema, s, fields, isBase, t0, id0, pos0, t', id', next, id' > fields.id)
  {
    hide ParseValue, ParseFieldHeader, Decode, Passed, DecodeLevelWith;
    PassOne(p, data, isBase, t0, id0, pos0, t, id, pos, ok, mid);
    PassedIsThere(p, data, isBase, t0, id0, pos0, t, id, pos);
    if ParseAfterHeader(p, t0, id0, data, pos0).Some? {
      var now := ParseAfterHeader(p, t, id, data, pos).value.0;
      assert now.Field? && now.id == id && ParseBody(p, data, mid).Some?;
      DecodePast(schema, s, fields, now, isBase, MarksAfter(p, t, id, data, pos));
      NextHeader(p, data, mid);
      var (t', id', next) := ParseFieldHeader(p, data, mid).value;
      FieldOn(p, data, t, id, pos, mid, t', id', next);
    }
  }

  lemma DecodePast(schema: Schema, s: nat, fields: Fields, body: Body, isBase: bool, marks: Marks)
    requires fields.FieldDef? && body.Field? && body.id < fields.id
    ensures EnoughLevel(schema, fields, body) ==> EnoughLevel(schema, fields, body.next)
    ensures DecodeLevelWith(schema, s, fields, body, isBase, marks)
         == if NextId(body.next, Onward(marks)) > fields.id
            then DecodeLevelWith(schema, s, fields.rest, body.next, isBase, Onward(marks))
            else DecodeLevelWith(schema, s, fields, body.next, isBase, Onward(marks))
  {
    hide DecodeWith;
  }

  /** The identifier in the next header is that of the next field or of the marker. */
  lemma NextHeader(p: Protocol, data: seq<byte>, pos: nat)
    requires ParseBody(p, data, pos).Some?
    ensures var (t, id, next) := ParseFieldHeader(p, data, pos).value;
            NextId(ParseBody(p, data, pos).value.0, MarksAfter(p, t, id, data, next)) == id
  {
    hide ParseValue, ParseFieldHeader, MarksAt;
  }

  lemma PassedIsThere(p: Protocol, data: seq<byte>, isBase: bool, t0: byte, id0: nat, pos0: nat,
                      t: byte, id: nat, pos: nat)
    requires Passed(p, data, isBase, t0, id0, pos0, t, id, pos)
    ensures ParseAfterHeader(p, t0, id0, data, pos0).Some? ==> ParseAfterHeader(p, t, id, data, pos).Some?
  {
  }

  lemma FewerThere(p: Protocol, data: seq<byte>, schema: Schema, fields: Fields, t: byte, id: nat, pos: nat)
    requires fields.FieldDef?
    ensures ParseAfterHeader(p, t, id, data, pos).Some? ==>
              var now := ParseAfterHeader(p, t, id, data, pos).value.0;
              EnoughLevel(schema, fields, now) ==> EnoughLevel(schema, fields.rest, now)
  {
    hide EnoughLevel, ParseAfterHeader;
    if ParseAfterHeader(p, t, id, data, pos).Some? {
      var now := ParseAfterHeader(p, t, id, data, pos).value.0;
      if EnoughLevel(schema, fields, now) {
        EnoughFewer(schema, fields, now);
      }
    }
  }

  lemma FirstEnough(schema: Schema, fields: Fields, body: Body)
    requires fields.FieldDef? && body.Field? && body.id == fields.id
    ensures EnoughLevel(schema, fields, body) ==> Enough(schema, fields.ft, body.value)
  {
    hide Enough;
    assert EnoughLevel(schema, fields, body) ==> EnoughField(schema, fields, body.id, body.value);
  }

  lemma PassedOn(p: Protocol, data: seq<byte>, isBase: bool, t0: byte, id0: nat, pos0: nat,
                 t: byte, id: nat, pos: nat)
    requires Passed(p, data, isBase, t0, id0, pos0, t, id, pos)
    ensures var before, now := ParseAfterHeader(p, t0, id0, data, pos0), ParseAfterHeader(p, t, id, data, pos);
            before.Some? && now.Some? ==>
              && before.value.1 == now.value.1
              && (isBase ==> Slicing.Bases(now.value.0) == Slicing.Bases(before.value.0))
  {
    hide ParseAfterHeader, LevelEndWith, MarksAfter;
  }

  /** The loop was left because the next header is beyond the field. */
  lemma AfterOver(p: Protocol, data: seq<byte>, schema: Schema, s: nat, fields: Fields, isBase: bool,
                  t0: byte, id0: nat, pos0: nat, t: byte, id: nat, pos: nat, ok: bool, end: nat, effects: seq<Effect>)
    requires fields.FieldDef? && Skipped(p, data, schema, s, fields, isBase, t0, id0, pos0, t, id, pos, true)
    requires RestRead(p, data, schema, s, fields.rest, isBase, t, id, pos, ok, end, effects)
    ensures RestRead(p, data, schema, s, fields, isBase, t0, id0, pos0, ok, end, effects)
  {
    hide ParseAfterHeader, DecodeLevelWith, Behind, Passed, MarksAfter, EnoughLevel;
    FewerThere(p, data, schema, fields, t, id, pos);
    PassedIsThere(p, data, isBase, t0, id0, pos0, t, id, pos);
    PassedOn(p, data, isBase, t0, id0, pos0, t, id, pos);
  }

  /** The next field is beyond this one, or the level ends: it is missing. */
  lemma AfterMissing(p: Protocol, data: seq<byte>, schema: Schema, s: nat, fields: Fields, isBase: bool,
                     t0: byte, id0: nat, pos0: nat, t: byte, id: nat, pos: nat, ok: bool, end: nat,
                     effects: seq<Effect>)
    requires fields.FieldDef? && Skipped(p, data, schema, s, fields, isBase, t0, id0, pos0, t, id, pos, false)
    requires t <= BT_STOP_BASE || id > fields.id
    requires if fields.required then !ok
             else RestRead(p, data, schema, s, fields.rest, isBase, t, id, pos, ok, end, effects)
    ensures RestRead(p, data, schema, s, fields, isBase, t0, id0, pos0, ok, end, effects)
  {
    hide ParseValue, DecodeWith, Behind, MarksAfter, EnoughLevel;
    FewerThere(p, data, schema, fields, t, id, pos);
    assert forall e: seq<Effect> :: [] + e == e;
  }

  /** The field is there and cannot be read. */
  lemma AfterUnreadable(p: Protocol, data: seq<byte>, schema: Schema, s: nat, fields: Fields, isBase: bool,
                        t0: byte, id0: nat, pos0: nat, t: byte, pos: nat, ok: bool, mid: nat, value: seq<Effect>,
                        end: nat)
    requires fields.FieldDef? && t > BT_STOP_BASE
    requires Skipped(p, data, schema, s, fields, isBase, t0, id0, pos0, t, fields.id, pos, false)
    requires ReadAs(p, data, schema, fields.ft, t, pos, ok, mid, value)
    requires !ok || ParseFieldHeader(p, data, mid) == None
    ensures RestRead(p, data, schema, s, fields, isBase, t0, id0, pos0, false, end, [])
  {
    hide ParseValue, DecodeWith, MarksAt, Behind, Enough, ParseFieldHeader, Passed;
    PassedIsThere(p, data, isBase, t0, id0, pos0, t, fields.id, pos);
    if ParseAfterHeader(p, t0, id0, data, pos0).Some? {
      var now := ParseAfterHeader(p, t, fields.id, data, pos).value.0;
      assert now.Field? && now.id == fields.id && ParseValue(p, t, data, pos).value.0 == now.value;
    }
  }

  /** The field is there and has been read, and so has what comes after it. */
  lemma AfterKnown(p: Protocol, data: seq<byte>, schema: Schema, s: nat, fields: Fields, isBase: bool,
                   t0: byte, id0: nat, pos0: nat, t: byte, pos: nat, mid: nat, value: seq<Effect>,
                   t': byte, id': nat, next: nat, ok: bool, end: nat, more: seq<Effect>)
    requires fields.FieldDef? && t > BT_STOP_BASE
    requires Skipped(p, data, schema, s, fields, isBase, t0, id0, pos0, t, fields.id, pos, false)
    requires ReadAs(p, data, schema, fields.ft, t, pos, true, mid, value)
    requires ParseFieldHeader(p, data, mid) == Some((t', id', next))
    requires RestRead(p, data, schema, s, fields.rest, isBase, t', id', next, ok, end, more)
    ensures RestRead(p, data, schema, s, fields, isBase, t0, id0, pos0, ok, end,
                     [Assign(s, fields.id)] + value + more)
  {
    hide ParseValue, DecodeWith, DecodeLevelWith, MarksAt, Behind, Enough, EnoughLevel, ParseFieldHeader,
      ParseAfterHeader, MarksAfter, Passed;
    PassedIsThere(p, data, isBase, t0, id0, pos0, t, fields.id, pos);
    PassedOn(p, data, isBase, t0, id0, pos0, t, fields.id, pos);
    if ParseAfterHeader(p, t0, id0, data, pos0).Some? {
      FieldThere(p, data, t, fields.id, pos);
      var now := ParseAfterHeader(p, t, fields.id, data, pos).value.0;
      KnownDecodes(schema, s, fields, now, isBase, MarksAfter(p, t, fields.id, data, pos));
      if DecodeWith(schema, fields.ft, now.value, MarksAt(p, t, data, pos)).Some? {
        FieldOn(p, data, t, fields.id, pos, mid, t', id', next);
        HeaderRead(p, data, mid);
        FewerThere(p, data, schema, fields, t', id', next);
      } else {
        FirstEnough(schema, fields, now);
      }
    }
  }

  lemma FieldThere(p: Protocol, data: seq<byte>, t: byte, id: nat, pos: nat)
    requires t > BT_STOP_BASE && ParseAfterHeader(p, t, id, data, pos).Some?
    ensures var (body, stop) := ParseAfterHeader(p, t, id, data, pos).value;
            && body.Field? && body.id == id && ParseValue(p, t, data, pos).Some?
            && body.value == ParseValue(p, t, data, pos).value.0
            && ParseBody(p, data, ParseValue(p, t, data, pos).value.1) == Some((body.next, stop))
            && Slicing.Bases(body) == Slicing.Bases(body.next)
            && Inside(MarksAfter(p, t, id, data, pos)) == MarksAt(p, t, data, pos)
  {
    hide ParseValue, MarksAt;
  }

  lemma HeaderRead(p: Protocol, data: seq<byte>, pos: nat)
    ensures match ParseFieldHeader(p, data, pos)
            case None => true
            case Some((t, id, next)) => ParseBody(p, data, pos) == ParseAfterHeader(p, t, id, data, next)
  {
    hide ParseFieldHeader;
  }

  lemma KnownDecodes(schema: Schema, s: nat, fields: Fields, body: Body, isBase: bool, marks: Marks)
    requires fields.FieldDef? && body.Field? && body.id == fields.id
    ensures DecodeLevelWith(schema, s, fields, body, isBase, marks)
         == BeforeWith(Then(Some([Assign(s, fields.id)]), DecodeWith(schema, fields.ft, body.value, Inside(marks))),
                       DecodeLevelWith(schema, s, fields.rest, body.next, isBase, Onward(marks)))
    ensures EnoughLevel(schema, fields, body) ==> EnoughLevel(schema, fields, body.next)
  {
    hide DecodeWith;
  }

  /** A level from the header `t0`, `id0` on: a loop for each field of the schema, and one for what
      is left over. */
  method ReadRest(r: TaggedReader, schema: Schema, s: nat, fields: Fields, isBase: bool, t0: byte, id0: nat)
    returns (ok: bool, effects: seq<Effect>)
    requires r.position <= |r.data|
    modifies r
    ensures RestRead(r.protocol, r.data, schema, s, fields, isBase, t0, id0, old(r.position), ok, r.position,
                     effects)
    ensures ok ==> old(r.position) <= r.position <= |r.data|
    decreases if r.position < |r.data| then |r.data| - r.position else 0, 5, fields
  {
    hide Skipped, RestRead, ReadAs, ParseValue, ParseFieldHeader;
    effects := [];
    if fields == NoFields {
      ok := SkipRest(r, schema, s, isBase, t0, id0);
      return;
    }
    ghost var p, data, start := r.protocol, r.data, r.position;
    StartsSkipping(p, data, schema, s, fields, isBase, t0, id0, start);
    var t: byte, id: nat, over := t0, id0, false;
    while !over && t > BT_STOP_BASE && id < fields.id
      invariant start <= r.position <= |data|
      invariant Skipped(p, data, schema, s, fields, isBase, t0, id0, start, t, id, r.position, over)
      decreases |data| - r.position
    {
      ghost var pos := r.position;
      ok := r.Skip(t);
      SkipOne(p, data, schema, s, fields, isBase, t0, id0, start, t, id, pos, ok, r.position);
      if !ok {
        NoLevel(p, data, schema, s, fields, isBase, t0, id0, start, r.position);
        return;
      }
      var header := r.ReadFieldBegin();
      if header == None {
        NoLevel(p, data, schema, s, fields, isBase, t0, id0, start, r.position);
        return false, [];
      }
      t, id := header.value.0, header.value.1;
      over := id > fields.id;
    }
    ghost var pos := r.position;
    if over {
      ok, effects := ReadRest(r, schema, s, fields.rest, isBase, t, id);
      AfterOver(p, data, schema, s, fields, isBase, t0, id0, start, t, id, pos, ok, r.position, effects);
    } else if t > BT_STOP_BASE && id == fields.id {
      ok, effects := ReadKnown(r, schema, s, fields, isBase, t0, id0, start, t);
    } else {
      if fields.required {
        ok := false;
      } else {
        ok, effects := ReadRest(r, schema, s, fields.rest, isBase, t, id);
      }
      AfterMissing(p, data, schema, s, fields, isBase, t0, id0, start, t, id, pos, ok, r.position, effects);
    }
  }

  method ReadKnown(r: TaggedReader, schema: Schema, s: nat, fields: Fields, isBase: bool,
                   ghost t0: byte, ghost id0: nat, ghost start: nat, t: byte)
    returns (ok: bool, effects: seq<Effect>)
    requires r.position <= |r.data| && fields.FieldDef? && t > BT_STOP_BASE
    requires Skipped(r.protocol, r.data, schema, s, fields, isBase, t0, id0, start, t, fields.id, r.position, false)
    modifies r
    ensures RestRead(r.protocol, r.data, schema, s, fields, isBase, t0, id0, start, ok, r.position, effects)
    ensures ok ==> old(r.position) <= r.position <= |r.data|
    decreases if r.position < |r.data| then |r.data| - r.position else 0, 4
  {
    hide Skipped, RestRead, ReadAs, ParseValue, ParseFieldHeader;
    ghost var p, data, pos := r.protocol, r.data, r.position;
    var value;
    ok, value := ReadValue(r, schema, fields.ft, t);
    ghost var mid := r.position;
    if !ok {
      AfterUnreadable(p, data, schema, s, fields, isBase, t0, id0, start, t, pos, ok, mid, value, mid);
      return false, [];
    }
    var header := r.ReadFieldBegin();
    if header == None {
      AfterUnreadable(p, data, schema, s, fields, isBase, t0, id0, start, t, pos, ok, mid, value, r.position);
      return false, [];
    }
    ghost var next := r.position;
    var t': byte, id': nat := header.value.0, header.value.1;
    var more;
    ok, more := ReadRest(r, schema, s, fields.rest, isBase, t', id');
    AfterKnown(p, data, schema, s, fields, isBase, t0, id0, start, t, pos, mid, value, t', id', next,
               ok, r.position, more);
    effects := [Assign(s, fields.id)] + value + more;
  }

  /** All levels of struct `s`. */
  ghost predicate LevelsRead(p: Protocol, data: seq<byte>, schema: Schema, s: nat, isBase: bool,
                             pos: nat, ok: bool, end: nat, effects: seq<Effect>)
    requires s < |schema|
  {
    match ParseBody(p, data, pos)
    case None => true
    case Some((body, stop)) =>
      match DecodeStructWith(schema, s, body, isBase, MarksOfBody(p, data, pos))
      case Some((e, rest, left)) => ok && effects == e && Behind(p, data, isBase, rest, left, stop, end)
      case None =>
        var levels := Slicing.Depth(schema, s) - if isBase then 0 else 1;
        EnoughLevels(schema, s, body) && Slicing.Bases(body) >= levels ==> !ok
  }

  /** After the levels of a base the rest is where its markers say. */
  lemma {:induction false} LevelsRest(schema: Schema, s: nat, body: Body, marks: Marks)
    requires s < |schema| && DecodeStructWith(schema, s, body, true, marks).Some?
    ensures var rest := DecodeStructWith(schema, s, body, true, marks).value.1;
            && AfterBase(schema, s, body) == Some(rest)
            && Slicing.Bases(body) == Slicing.Depth(schema, s) + Slicing.Bases(rest)
    decreases s
  {
    hide DecodeLevelWith, LevelEnd;
    match Base(schema, s)
    case None =>
      LevelRest(schema, s, schema[s].fields, body, true, marks);
      Slicing.LevelEndBases(body);
    case Some(base) =>
      LevelsRest(schema, base, body, marks);
      var (_, rest, left) := DecodeStructWith(schema, base, body, true, marks).value;
      LevelRest(schema, s, schema[s].fields, rest, true, left);
      Slicing.LevelEndBases(rest);
  }

  /** The root level. */
  lemma RootRead(p: Protocol, data: seq<byte>, schema: Schema, s: nat, isBase: bool, pos: nat,
                 t: byte, id: nat, next: nat, ok: bool, end: nat, effects: seq<Effect>)
    requires s < |schema| && Base(schema, s) == None && ParseFieldHeader(p, data, pos) == Some((t, id, next))
    requires RestRead(p, data, schema, s, schema[s].fields, isBase, t, id, next, ok, end, effects)
    ensures LevelsRead(p, data, schema, s, isBase, pos, ok, end, effects)
  {
    hide ParseFieldHeader, ParseAfterHeader, DecodeLevelWith, Behind, MarksAfter, EnoughLevel;
  }

  /** A level after its bases. */
  lemma DerivedRead(p: Protocol, data: seq<byte>, schema: Schema, s: nat, isBase: bool, pos: nat,
                    mid: nat, before: seq<Effect>, t: byte, id: nat, next: nat, ok: bool, end: nat,
                    effects: seq<Effect>)
    requires s < |schema| && Base(schema, s).Some?
    requires LevelsRead(p, data, schema, Base(schema, s).value, true, pos, true, mid, before)
    requires ParseFieldHeader(p, data, mid) == Some((t, id, next))
    requires RestRead(p, data, schema, s, schema[s].fields, isBase, t, id, next, ok, end, effects)
    ensures LevelsRead(p, data, schema, s, isBase, pos, ok, end, before + effects)
  {
    hide ParseFieldHeader, ParseAfterHeader, DecodeLevelWith, MarksAfter, EnoughLevel;
    var whole, base := ParseBody(p, data, pos), Base(schema, s).value;
    if whole.Some? && DecodeStructWith(schema, base, whole.value.0, true, MarksOfBody(p, data, pos)).Some? {
      LevelsRest(schema, base, whole.value.0, MarksOfBody(p, data, pos));
    }
  }

  lemma NotRead(p: Protocol, data: seq<byte>, schema: Schema, s: nat, isBase: bool, pos: nat,
                ok: bool, mid: nat, before: seq<Effect>, end: nat)
    requires s < |schema|
    requires match Base(schema, s)
             case None => mid == pos && ParseFieldHeader(p, data, mid) == None
             case Some(base) =>
               LevelsRead(p, data, schema, base, true, pos, ok, mid, before)
               && (!ok || ParseFieldHeader(p, data, mid) == None)
    ensures LevelsRead(p, data, schema, s, isBase, pos, false, end, [])
  {
    hide ParseFieldHeader, ParseAfterHeader, DecodeLevelWith, MarksOfBody, EnoughLevel;
  }

  method ReadLevels(r: TaggedReader, schema: Schema, s: nat, isBase: bool)
    returns (ok: bool, effects: seq<Effect>)
    requires s < |schema|
    modifies r
    ensures LevelsRead(r.protocol, r.data, schema, s, isBase, old(r.position), ok, r.position, effects)
    ensures ok ==> old(r.position) < r.position <= |r.data|
    decreases if r.position < |r.data| then |r.data| - r.position else 0, 1, s
  {
    hide LevelsRead, RestRead, ParseFieldHeader;
    ghost var p, data, start := r.protocol, r.data, r.position;
    ok, effects := true, [];
    if Base(schema, s).Some? {
      ok, effects := ReadLevels(r, schema, Base(schema, s).value, true);
    }
    ghost var mid := r.position;
    if !ok {
      NotRead(p, data, schema, s, isBase, start, ok, mid, effects, mid);
      return false, [];
    }
    var header := r.ReadFieldBegin();
    if header == None {
      NotRead(p, data, schema, s, isBase, start, ok, mid, effects, r.position);
      return false, [];
    }
    ghost var next := r.position;
    var t: byte, id: nat := header.value.0, header.value.1;
    var more;
    ok, more := ReadRest(r, schema, s, schema[s].fields, isBase, t, id);
    if Base(schema, s) == None {
      RootRead(p, data, schema, s, isBase, start, t, id, next, ok, r.position, more);
      effects := more;
    } else {
      DerivedRead(p, data, schema, s, isBase, start, mid, effects, t, id, next, ok, r.position, more);
      effects := effects + more;
    }
  }

  method ReadStruct(r: TaggedReader, schema: Schema, s: nat) returns (ok: bool, effects: seq<Effect>)
    requires s < |schema|
    modifies r
    ensures ReadAs(r.protocol, r.data, schema, StructOf(s), BT_STRUCT, old(r.position), ok, r.position, effects)
    ensures ok ==> old(r.position) < r.position <= |r.data|
    decreases if r.position < |r.data| then |r.data| - r.position else 0, 2
  {
    ghost var p, data, start := r.protocol, r.data, r.position;
    hide LevelsRead, ReadAs, ParseLength;
    ok := r.ReadStructBegin();
    if !ok {
      StructRead(p, data, schema, s, start, false, r.position, []);
      return false, [];
    }
    ok, effects := ReadLevels(r, schema, s, false);
    StructRead(p, data, schema, s, start, ok, r.position, effects);
    effects := [Fill(s)] + effects + [Filled(s)];
  }

  lemma StructRead(p: Protocol, data: seq<byte>, schema: Schema, s: nat, pos: nat,
                   ok: bool, end: nat, effects: seq<Effect>)
    requires s < |schema|
    requires match ParseLength(p, data, pos)
             case None => !ok
             case Some((_, body)) => LevelsRead(p, data, schema, s, false, body, ok, end, effects)
    ensures ReadAs(p, data, schema, StructOf(s), BT_STRUCT, pos, ok, end, [Fill(s)] + effects + [Filled(s)])
  {
    hide ParseLength, ParseBody, DecodeStructWith, MarksOfBody, EnoughLevels;
  }

  /** Slicing over a tagged protocol: wherever the payload has the encoding of a value of a derived
      type `d`, it is read into base `s`, and the reader ends just past the whole value. */
  method ReadBase(r: TaggedReader, schema: Schema, d: nat, s: nat) returns (ok: bool, effects: seq<Effect>)
    requires s < |schema| && d < |schema| && Slicing.Ancestor(schema, s, d)
    modifies r
    ensures forall v | Valid(v) && SimpleBinary.Conforms(schema, StructOf(d), v)
                       && At(r.data, old(r.position), EncodeValue(r.protocol, v))
              :: ok && Decode(schema, StructOf(s), v) == Some(effects)
                 && r.position == old(r.position) + |EncodeValue(r.protocol, v)|
  {
    ghost var start := r.position;
    ok, effects := ReadStruct(r, schema, s);
    forall v | Valid(v) && SimpleBinary.Conforms(schema, StructOf(d), v)
               && At(r.data, start, EncodeValue(r.protocol, v))
      ensures ok && Decode(schema, StructOf(s), v) == Some(effects)
      ensures r.position == start + |EncodeValue(r.protocol, v)|
    {
      BaseRead(r.protocol, r.data, schema, d, s, v, start, ok, r.position, effects);
    }
  }

  lemma BaseRead(p: Protocol, data: Payload, schema: Schema, d: nat, s: nat, v: Value,
                 pos: nat, ok: bool, end: nat, effects: seq<Effect>)
    requires s < |schema| && d < |schema| && Slicing.Ancestor(schema, s, d)
    requires Valid(v) && SimpleBinary.Conforms(schema, StructOf(d), v) && At(data, pos, EncodeValue(p, v))
    requires ReadAs(p, data, schema, StructOf(s), BT_STRUCT, pos, ok, end, effects)
    ensures ok && Decode(schema, StructOf(s), v) == Some(effects) && end == pos + |EncodeValue(p, v)|
  {
    hide ParseValue, EncodeValue, DecodeStruct, DecodeWith, SimpleBinary.Levels, Valid, At, Harmless, MarksAt, Enough;
    Slicing.BaseType(schema, s, d, v.body);
    RoundTrip.ValueRoundTrip(p, v, data, pos);
    HarmlessDecodes(schema, StructOf(s), v, MarksAt(p, BT_STRUCT, data, pos));
  }

  /** Where the struct at `pos` has levels enough, `ok` is false exactly when it `Fails` with the
      identifiers of its markers, and `effects` are what decoding it with those gives; if they are
      harmless, they may be left out. */
  ghost predicate Deserialized(p: Protocol, data: seq<byte>, schema: Schema, s: nat, pos: nat, ok: bool, end: nat,
                               effects: seq<Effect>)
    requires s < |schema|
  {
    match ParseValue(p, BT_STRUCT, data, pos)
    case None => true
    case Some((v, next)) =>
      var marks := MarksAt(p, BT_STRUCT, data, pos);
      Enough(schema, StructOf(s), v) ==>
        && (!ok <==> Failures.Fails(schema, StructOf(s), v, marks))
        && (ok ==> end == next && DecodeWith(schema, StructOf(s), v, marks) == Some(effects))
        && (Harmless(v, marks) ==>
              && (!ok <==> Failures.Fails(schema, StructOf(s), v, NoMarks))
              && (ok ==> Decode(schema, StructOf(s), v) == Some(effects)))
  }

  /** Reads an object. Where the structs in the payload have levels enough, an exception is raised exactly
      when the value `Fails` with the identifiers that its markers carry. Whatever is written from an object
      of the type or of a derived one, required fields left out or not, has levels enough and no such
      identifiers. */
  method Deserialize(r: TaggedReader, schema: Schema, s: nat) returns (ok: bool, effects: seq<Effect>)
    requires s < |schema| && Failures.Ordered(schema)
    modifies r
    ensures Deserialized(r.protocol, r.data, schema, s, old(r.position), ok, r.position, effects)
    ensures forall v, d | Written(r.protocol, schema, s, d, v, r.data, old(r.position))
              :: (!ok <==> Failures.Fails(schema, StructOf(s), v, NoMarks))
                 && (ok ==> Decode(schema, StructOf(s), v) == Some(effects)
                            && r.position == old(r.position) + |EncodeValue(r.protocol, v)|)
  {
    hide ReadAs, Written, Failures.Ordered, Failures.Fails, Decode, DecodeWith, ParseValue, Enough, Harmless, MarksAt;
    ghost var p, data, start := r.protocol, r.data, r.position;
    ok, effects := ReadStruct(r, schema, s);
    ReadFails(p, data, schema, s, start, ok, r.position, effects);
    forall v, d | Written(p, schema, s, d, v, data, start)
      ensures Valid(v) && ParseValue(p, BT_STRUCT, data, start) == Some((v, start + |EncodeValue(p, v)|))
      ensures Enough(schema, StructOf(s), v) && Harmless(v, MarksAt(p, BT_STRUCT, data, start))
    {
      WrittenIs(p, schema, s, d, v, data, start);
    }
  }

  /** The encoding of a value made from an object of `d`, which is `s` or derived from it. */
  ghost predicate Written(p: Protocol, schema: Schema, s: nat, d: nat, v: Value, data: seq<byte>, pos: nat)
    requires s < |schema|
  {
    && d < |schema| && Slicing.Ancestor(schema, s, d) && Made(schema, StructOf(d), v)
    && Valid(v) && At(data, pos, EncodeValue(p, v))
  }

  lemma WrittenIs(p: Protocol, schema: Schema, s: nat, d: nat, v: Value, data: Payload, pos: nat)
    requires s < |schema| && Failures.Ordered(schema) && Written(p, schema, s, d, v, data, pos)
    ensures Valid(v) && ParseValue(p, BT_STRUCT, data, pos) == Some((v, pos + |EncodeValue(p, v)|))
    ensures Enough(schema, StructOf(s), v) && Harmless(v, MarksAt(p, BT_STRUCT, data, pos))
  {
    OrderedRegular(schema);
    SlicedEnough(schema, s, d, v);
    RoundTrip.ValueRoundTrip(p, v, data, pos);
    WrittenQuiet(p, v, data, pos);
  }

  lemma OrderedRegular(schema: Schema)
    requires Failures.Ordered(schema)
    ensures Slicing.Regular(schema)
  {
    forall s | 0 <= s < |schema| ensures Slicing.Sorted(schema[s].fields) {
      AscendingSorted(schema[s].fields);
    }
  }

  lemma {:induction false} AscendingSorted(fields: Fields)
    requires FieldMerge.Ascending(Required.Tags(fields))
    ensures Slicing.Sorted(fields)
  {
    if fields.FieldDef? {
      var tags := Required.Tags(fields);
      assert tags[1..] == Required.Tags(fields.rest);
      assert FieldMerge.Ascending(tags[1..]);
      if fields.rest.FieldDef? {
        assert tags[0].id == fields.id && tags[1].id == fields.rest.id;
      }
      AscendingSorted(fields.rest);
    }
  }

  lemma ReadFails(p: Protocol, data: seq<byte>, schema: Schema, s: nat, pos: nat, ok: bool, end: nat,
                  effects: seq<Effect>)
    requires s < |schema| && Failures.Ordered(schema)
    requires ReadAs(p, data, schema, StructOf(s), BT_STRUCT, pos, ok, end, effects)
    ensures Deserialized(p, data, schema, s, pos, ok, end, effects)
  {
    hide ParseValue, Decode, DecodeWith, Enough, Harmless, MarksAt, Failures.Fails, Failures.Ordered;
    if ParseValue(p, BT_STRUCT, data, pos).Some? {
      var v, marks := ParseValue(p, BT_STRUCT, data, pos).value.0, MarksAt(p, BT_STRUCT, data, pos);
      Failures.DecodeFails(schema, StructOf(s), v, marks);
      if Harmless(v, marks) {
        Failures.PlainFails(schema, StructOf(s), v);
        HarmlessDecodes(schema, StructOf(s), v, marks);
      }
    }
  }

  /** A derived struct whose field 0 is a struct with one field, 5, that is required. */
  const Nesting: Schema :=
    [StructDef(None, NoFields), StructDef(Some(0), FieldDef(0, false, StructOf(2), NoFields)),
     StructDef(None, FieldDef(5, true, Scalar(BT_BOOL), NoFields))]

  /** An object of the derived struct, written without the nested field, is not read, in any protocol. */
  method MissingNested(r: TaggedReader) returns (ok: bool)
    requires At(r.data, r.position, EncodeValue(r.protocol, Struct(StopBase(Field(0, Struct(Stop), Stop)))))
    modifies r
    ensures !ok
  {
    var effects;
    MissingNestedFails(r.protocol, r.data, r.position);
    hide Written, Failures.Ordered, Failures.Fails, Enough, Decode;
    ok, effects := Deserialize(r, Nesting, 1);
  }

  lemma MissingNestedFails(p: Protocol, data: seq<byte>, pos: nat)
    requires At(data, pos, EncodeValue(p, Struct(StopBase(Field(0, Struct(Stop), Stop)))))
    ensures var v := Struct(StopBase(Field(0, Struct(Stop), Stop)));
            && Failures.Ordered(Nesting) && Written(p, Nesting, 1, 1, v, data, pos)
            && Failures.Fails(Nesting, StructOf(1), v, NoMarks)
  {
    var body := StopBase(Field(0, Struct(Stop), Stop));
    assert MadeLevels(Nesting, 0, body) == Some(body);
    assert MadeLevels(Nesting, 2, Stop) == Some(Stop) && Made(Nesting, StructOf(2), Struct(Stop));
    assert MadeLevels(Nesting, 1, body) == Some(Stop);
    assert Slicing.Ancestor(Nesting, 1, 1);
    assert DecodeLevel(Nesting, 2, Nesting[2].fields, Stop, false) == None;
    assert Decode(Nesting, StructOf(2), Struct(Stop)) == None;
    assert Decode(Nesting, StructOf(1), Struct(body)) == None;
    Failures.PlainFails(Nesting, StructOf(1), Struct(body));
  }

  /** A payload with field 3 and a stop marker that carries `id`, read into a struct with one field, 5, that
      is required: it is missing, and that is noticed if and only if the marker's identifier is not
      beyond it. */
  method HiddenField(id: byte) returns (ok: bool)
    ensures ok <==> id > 5
    ensures var schema := [StructDef(None, FieldDef(5, true, Scalar(BT_BOOL), NoFields))];
            && ParseValue(CompactV1, BT_STRUCT, [0x62, 1, 0xE0, id, 0], 0)
               == Some((Struct(Field(3, Num(BT_BOOL, 1), Stop)), 5))
            && Decode(schema, StructOf(0), Struct(Field(3, Num(BT_BOOL, 1), Stop))) == None
  {
    var schema := [StructDef(None, FieldDef(5, true, Scalar(BT_BOOL), NoFields))];
    var data: Payload := [0x62, 1, 0xE0, id, 0];
    var r := new TaggedReader(CompactV1, data);
    HiddenFieldParsed(id);
    HiddenFieldDecoded(id);
    hide ParseValue, MarksAt, DecodeWith, Decode, Enough;
    var effects;
    ok, effects := ReadStruct(r, schema, 0);
  }

  lemma HiddenFieldParsed(id: byte)
    ensures var data: seq<byte> := [0x62, 1, 0xE0, id, 0];
            && ParseValue(CompactV1, BT_STRUCT, data, 0) == Some((Struct(Field(3, Num(BT_BOOL, 1), Stop)), 5))
            && MarksAt(CompactV1, BT_STRUCT, data, 0) == Both(NoMarks, Mark(id, NoMarks))
  {
    var data: seq<byte> := [0x62, 1, 0xE0, id, 0];
    assert FromLittleEndian(data, 5, 0) == 0 && FromLittleEndian(data, 4, 1) == 0;
    assert ParseFieldHeader(CompactV1, data, 2) == Some((BT_STOP, id as nat, 5));
    assert ParseFieldHeader(CompactV1, data, 0) == Some((BT_BOOL, 3, 1));
    assert ParseValue(CompactV1, BT_BOOL, data, 1) == Some((Num(BT_BOOL, 1), 2));
    assert ParseBody(CompactV1, data, 2) == Some((Stop, 5));
    assert ParseBody(CompactV1, data, 0) == Some((Field(3, Num(BT_BOOL, 1), Stop), 5));
    assert MarksOfBody(CompactV1, data, 2) == Mark(id, NoMarks);
    assert MarksAfter(CompactV1, BT_BOOL, 3, data, 1) == Both(NoMarks, MarksOfBody(CompactV1, data, 2));
    assert MarksOfBody(CompactV1, data, 0) == Both(NoMarks, Mark(id, NoMarks));
  }

  lemma HiddenFieldDecoded(id: byte)
    ensures var schema := [StructDef(None, FieldDef(5, true, Scalar(BT_BOOL), NoFields))];
            var v := Struct(Field(3, Num(BT_BOOL, 1), Stop));
            && DecodeWith(schema, StructOf(0), v, Both(NoMarks, Mark(id, NoMarks)))
               == (if id > 5 then Some([Fill(0), Filled(0)]) else None)
            && Decode(schema, StructOf(0), v) == None && Enough(schema, StructOf(0), v)
  {
    var schema := [StructDef(None, FieldDef(5, true, Scalar(BT_BOOL), NoFields))];
    var body, marks := Field(3, Num(BT_BOOL, 1), Stop), Both(NoMarks, Mark(id, NoMarks));
    assert DecodeLevelWith(schema, 0, NoFields, Stop, false, Mark(id, NoMarks)) == Some(([], Stop, NoMarks));
    assert DecodeLevelWith(schema, 0, schema[0].fields, body, false, marks)
        == if id > 5 then Some(([], Stop, NoMarks)) else None;
    assert [Fill(0)] + [] + [Filled(0)] == [Fill(0), Filled(0)];
  }
}
