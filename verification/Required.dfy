/** The deserializer as a listener of the C# merge loop, and which missing required fields it
    notices. */
module Required {
  import opened Bytes
  import opened Wire
  import Deserialization
  import opened FieldMerge
  import opened FieldMergeLaws
  import StopMarkers

  type Fields = Deserialization.Fields
  type Effect = Deserialization.Effect
  type Marks = StopMarkers.Marks
  type Schema = Deserialization.Schema

  function Tags(fields: Fields): (r: seq<FieldTag>)
    ensures |r| == Length(fields)
  {
    match fields
    case NoFields => []
    case FieldDef(id, _, ft, rest) => [FieldTag(id, Deserialization.BondType(ft))] + Tags(rest)
  }

  function Length(fields: Fields): nat {
    match fields
    case NoFields => 0
    case FieldDef(_, _, _, rest) => 1 + Length(rest)
  }

  function From(fields: Fields, k: nat): (r: Fields)
    requires k <= Length(fields)
    ensures Length(r) == Length(fields) - k
  {
    if k == 0 then fields else From(fields.rest, k - 1)
  }

  /** The fields of the first level of `body`. */
  function LevelTags(body: Body): (r: seq<FieldTag>)
    ensures |r| == LevelSize(body)
  {
    match body
    case Field(id, v, next) => [FieldTag(id, TypeOf(v))] + LevelTags(next)
    case _ => []
  }

  function LevelSize(body: Body): nat {
    if body.Field? then 1 + LevelSize(body.next) else 0
  }

  function After(body: Body, i: nat): (r: Body)
    requires i <= LevelSize(body)
    ensures LevelSize(r) == LevelSize(body) - i
  {
    if i == 0 then body else After(body.next, i - 1)
  }

  lemma {:induction false} FromStep(fields: Fields, k: nat)
    requires k < Length(fields)
    ensures From(fields, k).FieldDef? && From(fields, k).rest == From(fields, k + 1)
    ensures Tags(fields)[k] == FieldTag(From(fields, k).id, Deserialization.BondType(From(fields, k).ft))
  {
    if k > 0 {
      FromStep(fields.rest, k - 1);
    }
  }

  lemma {:induction false} AfterStep(body: Body, i: nat)
    requires i < LevelSize(body)
    ensures After(body, i).Field? && After(body, i).next == After(body, i + 1)
    ensures LevelTags(body)[i] == FieldTag(After(body, i).id, TypeOf(After(body, i).value))
  {
    if i > 0 {
      AfterStep(body.next, i - 1);
    }
  }

  /** The markers behind `i` fields of a level. */
  function Past(marks: Marks, i: nat): Marks {
    if i == 0 then marks else Past(StopMarkers.Onward(marks), i - 1)
  }

  lemma {:induction false} PastStep(body: Body, marks: Marks, i: nat, isBase: bool)
    requires i <= LevelSize(body)
    ensures Past(marks, i + 1) == StopMarkers.Onward(Past(marks, i))
    ensures StopMarkers.LevelMarker(After(body, i), Past(marks, i)) == StopMarkers.LevelMarker(body, marks)
    ensures StopMarkers.LevelEndWith(After(body, i), Past(marks, i), isBase)
         == StopMarkers.LevelEndWith(body, marks, isBase)
  {
    if i > 0 {
      PastStep(body.next, StopMarkers.Onward(marks), i - 1, isBase);
    }
  }

  /** What the deserializer does when it is told of an event; `None` is an exception. */
  function Hear(schema: Schema, s: nat, fields: Fields, body: Body, marks: Marks, e: Event): Option<seq<Effect>> {
    match e
    case Known(k, i) =>
      if k >= Length(fields) || i >= LevelSize(body) then Some([])
      else
        var f := From(fields, k);
        Deserialization.Then(Some([Deserialization.Assign(s, f.id)]),
                             StopMarkers.DecodeWith(schema, f.ft, After(body, i).value,
                                                    StopMarkers.Inside(Past(marks, i))))
    case Unknown(_) => Some([])
    case Omitted(k) => if k >= Length(fields) then Some([]) else Deserialization.Absent(From(fields, k).required)
  }

  function HearAll(schema: Schema, s: nat, fields: Fields, body: Body, marks: Marks, events: seq<Event>)
    : Option<seq<Effect>>
  {
    if events == [] then Some([])
    else Deserialization.Then(Hear(schema, s, fields, body, marks, events[0]),
                              HearAll(schema, s, fields, body, marks, events[1..]))
  }

  /** What a level comes to with these events. */
  function Told(schema: Schema, s: nat, fields: Fields, body: Body, isBase: bool, marks: Marks, events: seq<Event>)
    : StopMarkers.LevelResult
  {
    match (HearAll(schema, s, fields, body, marks, events), StopMarkers.LevelEndWith(body, marks, isBase))
    case (Some(effects), Some((rest, left))) => Some((effects, rest, left))
    case _ => None
  }

  /** The C# loop for the level, with the identifier in its marker. */
  function LoopFor(body: Body, marks: Marks): (r: Loop)
    ensures r.Tagged?
  {
    Tagged(StopMarkers.LevelMarker(body, marks))
  }

  /** The rest of a level in terms of the events still to come, at schema field `k` and payload
      field `i`. */
  ghost predicate Interprets(schema: Schema, s: nat, fields: Fields, body: Body, isBase: bool, marks: Marks, k: nat,
                             i: nat)
    requires k <= Length(fields) && i <= LevelSize(body)
  {
    StopMarkers.DecodeLevelWith(schema, s, From(fields, k), After(body, i), isBase, Past(marks, i))
    == Told(schema, s, fields, body, isBase, marks, Rest(LoopFor(body, marks), Tags(fields), LevelTags(body), i, k))
  }

  lemma HearCons(schema: Schema, s: nat, fields: Fields, body: Body, marks: Marks, e: Event, rest: seq<Event>)
    ensures HearAll(schema, s, fields, body, marks, [e] + rest)
         == Deserialization.Then(Hear(schema, s, fields, body, marks, e), HearAll(schema, s, fields, body, marks, rest))
  {
    assert ([e] + rest)[1..] == rest;
  }

  /** The identifier of the header at payload position `i`. */
  function IdAt(loop: Loop, payload: seq<FieldTag>, i: nat): nat
    requires i <= |payload| && loop.Tagged?
  {
    if i < |payload| then payload[i].id else loop.stop
  }

  /** The deserializer is at schema field `k` and payload position `i`, and passes the field there
      only if it has come to it there, or the level ends with a marker that is not beyond it. */
  ghost predicate Position(loop: Loop, tags: seq<FieldTag>, payload: seq<FieldTag>, k: nat, i: nat) {
    && Stands(loop, tags, payload, k, i)
    && (k < |tags| ==> Arrival(loop, tags, payload, k) <= i)
    && (k < |tags| && IdAt(loop, payload, i) > tags[k].id ==> i == Arrival(loop, tags, payload, k))
  }

  /** Field `k` is found missing. */
  lemma PassMissing(loop: Loop, tags: seq<FieldTag>, payload: seq<FieldTag>, k: nat, i: nat)
    requires loop.Tagged? && Position(loop, tags, payload, k, i)
    requires k < |tags| && (i == |payload| || payload[i].id > tags[k].id)
    ensures Rest(loop, tags, payload, i, k) == [Omitted(k)] + Rest(loop, tags, payload, i, k + 1)
    ensures Position(loop, tags, payload, k + 1, i)
  {
    hide Rest, Stands, Arrival;
    AtLeft(loop, tags, payload, k, i);
    AtPassed(loop, tags, payload, k, i);
    assert Reports(loop, tags, payload, k, i);
  }

  lemma PassEqual(loop: Loop, tags: seq<FieldTag>, payload: seq<FieldTag>, k: nat, i: nat)
    requires loop.Tagged? && Position(loop, tags, payload, k, i)
    requires k < |tags| && i < |payload| && payload[i].id == tags[k].id
    ensures Rest(loop, tags, payload, i, k) == [Known(k, i)] + Rest(loop, tags, payload, i + 1, k + 1)
    ensures Position(loop, tags, payload, k + 1, i + 1)
  {
    hide Rest, Stands, Arrival;
    AtKnown(loop, tags, payload, k, i);
  }

  /** An unknown field; a schema field before the next header is passed over with it. */
  lemma PassUnknown(loop: Loop, tags: seq<FieldTag>, payload: seq<FieldTag>, k: nat, i: nat)
    requires loop.Tagged? && Position(loop, tags, payload, k, i) && i < |payload|
    requires k < |tags| ==> payload[i].id < tags[k].id
    ensures var over := k < |tags| && IdAt(loop, payload, i + 1) > tags[k].id;
            var next := if over then k + 1 else k;
            && Rest(loop, tags, payload, i, k) == [Unknown(i)] + Rest(loop, tags, payload, i + 1, next)
            && Position(loop, tags, payload, next, i + 1)
  {
    hide Rest, Stands, Arrival;
    AtUnknown(loop, tags, payload, k, i);
    if k < |tags| && IdAt(loop, payload, i + 1) > tags[k].id {
      AtPassed(loop, tags, payload, k, i + 1);
      var rest := Rest(loop, tags, payload, i + 1, k + 1);
      assert [] + rest == rest;
    }
  }

  /** Deserializing a level is listening to the merge loop. */
  lemma {:induction false} Interpret(schema: Schema, s: nat, fields: Fields, body: Body, isBase: bool, marks: Marks,
                                     k: nat, i: nat)
    requires Position(LoopFor(body, marks), Tags(fields), LevelTags(body), k, i)
    ensures Interprets(schema, s, fields, body, isBase, marks, k, i)
    decreases LevelSize(body) - i, Length(fields) - k
  {
    hide Position, Rest, Merge, LoopFor, Interprets, IdAt, Tags, LevelTags;
    var loop, tags, payload := LoopFor(body, marks), Tags(fields), LevelTags(body);
    assert k <= |tags| && i <= |payload| by {
      assert Position(loop, tags, payload, k, i);
      InBounds(loop, tags, payload, k, i);
    }
    if k < |tags| && (i == |payload| || payload[i].id > tags[k].id) {
      PassMissing(loop, tags, payload, k, i);
      Interpret(schema, s, fields, body, isBase, marks, k + 1, i);
      AfterMissing(schema, s, fields, body, isBase, marks, k, i);
    } else if i == |payload| {
      AfterAll(schema, s, fields, body, isBase, marks);
    } else if k < |tags| && payload[i].id == tags[k].id {
      PassEqual(loop, tags, payload, k, i);
      Interpret(schema, s, fields, body, isBase, marks, k + 1, i + 1);
      AfterEqual(schema, s, fields, body, isBase, marks, k, i);
    } else {
      PassUnknown(loop, tags, payload, k, i);
      var over := k < |tags| && IdAt(loop, payload, i + 1) > tags[k].id;
      Interpret(schema, s, fields, body, isBase, marks, if over then k + 1 else k, i + 1);
      AfterUnknown(schema, s, fields, body, isBase, marks, k, i);
    }
  }

  lemma AfterAll(schema: Schema, s: nat, fields: Fields, body: Body, isBase: bool, marks: Marks)
    ensures Interprets(schema, s, fields, body, isBase, marks, Length(fields), LevelSize(body))
  {
    hide Rest, Past, LoopFor;
    NothingRest(LoopFor(body, marks), Tags(fields), LevelTags(body));
    PastStep(body, marks, LevelSize(body), isBase);
  }

  lemma AfterMissing(schema: Schema, s: nat, fields: Fields, body: Body, isBase: bool, marks: Marks, k: nat, i: nat)
    requires k < Length(fields) && i <= LevelSize(body)
    requires i == LevelSize(body) || LevelTags(body)[i].id > Tags(fields)[k].id
    requires Rest(LoopFor(body, marks), Tags(fields), LevelTags(body), i, k)
          == [Omitted(k)] + Rest(LoopFor(body, marks), Tags(fields), LevelTags(body), i, k + 1)
    requires Interprets(schema, s, fields, body, isBase, marks, k + 1, i)
    ensures Interprets(schema, s, fields, body, isBase, marks, k, i)
  {
    hide Rest, Past, LoopFor, StopMarkers.DecodeWith, HearAll;
    FromStep(fields, k);
    if i < LevelSize(body) {
      AfterStep(body, i);
    }
    HearCons(schema, s, fields, body, marks, Omitted(k),
             Rest(LoopFor(body, marks), Tags(fields), LevelTags(body), i, k + 1));
  }

  lemma AfterEqual(schema: Schema, s: nat, fields: Fields, body: Body, isBase: bool, marks: Marks, k: nat, i: nat)
    requires k < Length(fields) && i < LevelSize(body) && LevelTags(body)[i].id == Tags(fields)[k].id
    requires Rest(LoopFor(body, marks), Tags(fields), LevelTags(body), i, k)
          == [Known(k, i)] + Rest(LoopFor(body, marks), Tags(fields), LevelTags(body), i + 1, k + 1)
    requires Interprets(schema, s, fields, body, isBase, marks, k + 1, i + 1)
    ensures Interprets(schema, s, fields, body, isBase, marks, k, i)
  {
    hide Rest, Past, LoopFor, StopMarkers.DecodeWith, HearAll;
    FromStep(fields, k);
    AfterStep(body, i);
    PastStep(body, marks, i, isBase);
    HearCons(schema, s, fields, body, marks, Known(k, i),
             Rest(LoopFor(body, marks), Tags(fields), LevelTags(body), i + 1, k + 1));
  }

  lemma AfterUnknown(schema: Schema, s: nat, fields: Fields, body: Body, isBase: bool, marks: Marks, k: nat, i: nat)
    requires k <= Length(fields) && i < LevelSize(body)
    requires k < Length(fields) ==> LevelTags(body)[i].id < Tags(fields)[k].id
    requires var loop := LoopFor(body, marks);
             var over := k < Length(fields) && IdAt(loop, LevelTags(body), i + 1) > Tags(fields)[k].id;
             var next := if over then k + 1 else k;
             && Rest(loop, Tags(fields), LevelTags(body), i, k)
                == [Unknown(i)] + Rest(loop, Tags(fields), LevelTags(body), i + 1, next)
             && Interprets(schema, s, fields, body, isBase, marks, next, i + 1)
    ensures Interprets(schema, s, fields, body, isBase, marks, k, i)
  {
    hide Rest, Past, LoopFor, HearAll, IdAt, StopMarkers.DecodeLevelWith, StopMarkers.LevelEndWith;
    var loop := LoopFor(body, marks);
    var over := k < Length(fields) && IdAt(loop, LevelTags(body), i + 1) > Tags(fields)[k].id;
    DecodePastUnknown(schema, s, fields, body, isBase, marks, k, i);
    var rest := Rest(loop, Tags(fields), LevelTags(body), i + 1, if over then k + 1 else k);
    HearCons(schema, s, fields, body, marks, Unknown(i), rest);
    assert forall e: seq<Effect> :: [] + e == e;
  }

  lemma DecodePastUnknown(schema: Schema, s: nat, fields: Fields, body: Body, isBase: bool, marks: Marks, k: nat,
                          i: nat)
    requires k <= Length(fields) && i < LevelSize(body)
    requires k < Length(fields) ==> LevelTags(body)[i].id < Tags(fields)[k].id
    ensures var over := k < Length(fields)
                        && IdAt(LoopFor(body, marks), LevelTags(body), i + 1) > Tags(fields)[k].id;
            StopMarkers.DecodeLevelWith(schema, s, From(fields, k), After(body, i), isBase, Past(marks, i))
            == StopMarkers.DecodeLevelWith(schema, s, From(fields, if over then k + 1 else k), After(body, i + 1),
                                           isBase, Past(marks, i + 1))
  {
    hide Past, StopMarkers.DecodeWith;
    AfterStep(body, i);
    PastStep(body, marks, i, isBase);
    PastStep(body, marks, i + 1, isBase);
    if i + 1 < LevelSize(body) {
      AfterStep(body, i + 1);
    }
    if k < Length(fields) {
      FromStep(fields, k);
    }
  }

  lemma InBounds(loop: Loop, tags: seq<FieldTag>, payload: seq<FieldTag>, k: nat, i: nat)
    requires Position(loop, tags, payload, k, i)
    ensures k <= |tags| && i <= |payload|
  {
  }

  lemma NothingRest(loop: Loop, tags: seq<FieldTag>, payload: seq<FieldTag>)
    ensures Rest(loop, tags, payload, |payload|, |tags|) == []
  {
  }

  lemma LevelIsMerge(schema: Schema, s: nat, fields: Fields, body: Body, isBase: bool, marks: Marks)
    requires Ascending(Tags(fields))
    ensures StopMarkers.DecodeLevelWith(schema, s, fields, body, isBase, marks)
         == Told(schema, s, fields, body, isBase, marks,
                 Merge(LoopFor(body, marks), Tags(fields), LevelTags(body), 0))
  {
    assert Position(LoopFor(body, marks), Tags(fields), LevelTags(body), 0, 0);
    hide Merge, Rest, StopMarkers.DecodeLevelWith, Told, Position, LoopFor;
    Arrive(LoopFor(body, marks), Tags(fields), LevelTags(body), 0, 0);
    Interpret(schema, s, fields, body, isBase, marks, 0, 0);
  }

  lemma {:induction false} HearingFails(schema: Schema, s: nat, fields: Fields, body: Body, marks: Marks,
                                        events: seq<Event>)
    ensures HearAll(schema, s, fields, body, marks, events) == None
       <==> exists e :: e in events && Hear(schema, s, fields, body, marks, e) == None
  {
    hide Hear;
    if events != [] {
      HearingFails(schema, s, fields, body, marks, events[1..]);
    }
  }

  lemma KnownIsThere(loop: Loop, tags: seq<FieldTag>, payload: seq<FieldTag>, k: nat, i: nat)
    requires Known(k, i) in Merge(loop, tags, payload, 0)
    ensures k < |tags| && i < |payload| && tags[k].id == payload[i].id
  {
    hide Merge, Gap;
    PayloadOrder(loop, tags, payload, 0);
    DataHasAll(Merge(loop, tags, payload, 0), Known(k, i));
  }

  /** Every payload field the schema knows can be decoded. */
  ghost predicate Readable(schema: Schema, fields: Fields, body: Body, marks: Marks) {
    forall k, i :: 0 <= k < Length(fields) && 0 <= i < LevelSize(body)
                   && Tags(fields)[k].id == LevelTags(body)[i].id ==>
      StopMarkers.DecodeWith(schema, From(fields, k).ft, After(body, i).value,
                             StopMarkers.Inside(Past(marks, i))).Some?
  }

  predicate Noticed(loop: Loop, fields: Fields, body: Body, k: nat)
    requires k < Length(fields)
  {
    && From(fields, k).required && FieldMergeLaws.Absent(Tags(fields), LevelTags(body), k)
    && !Overlooked(loop, Tags(fields), LevelTags(body), k)
  }

  /** Reading a level whose fields are otherwise fine fails if and only if some required field is
      missing and not overlooked: an unknown field between it and the schema field before it, with
      another field after it in the payload or a marker beyond it at the end of the level, keeps a
      missing required field from being noticed. */
  lemma MissingRequired(schema: Schema, s: nat, fields: Fields, body: Body, isBase: bool, marks: Marks)
    requires Ascending(Tags(fields)) && Ascending(LevelTags(body)) && Readable(schema, fields, body, marks)
    requires Deserialization.LevelEnd(body, isBase).Some?
    ensures StopMarkers.DecodeLevelWith(schema, s, fields, body, isBase, marks) == None
       <==> exists k :: 0 <= k < Length(fields) && Noticed(LoopFor(body, marks), fields, body, k)
  {
    hide Merge, StopMarkers.DecodeLevelWith, Deserialization.LevelEnd, StopMarkers.DecodeWith, HearAll, Ascending,
      FieldMergeLaws.Absent, Overlooked, Times;
    var loop, tags, payload := LoopFor(body, marks), Tags(fields), LevelTags(body);
    var events := Merge(loop, tags, payload, 0);
    LevelIsMerge(schema, s, fields, body, isBase, marks);
    HearingFails(schema, s, fields, body, marks, events);
    forall k: nat | k < Length(fields)
      ensures Omitted(k) in events <==> FieldMergeLaws.Absent(tags, payload, k) && !Overlooked(loop, tags, payload, k)
    {
      OmittedExactly(loop, tags, payload, k);
      NoTimes(events, Omitted(k));
    }
    forall e | e in events
      ensures Hear(schema, s, fields, body, marks, e) == None
         <==> e.Omitted? && e.field < Length(fields) && From(fields, e.field).required
    {
      if e.Known? {
        KnownIsThere(loop, tags, payload, e.field, e.at);
      }
    }
    if StopMarkers.DecodeLevelWith(schema, s, fields, body, isBase, marks) == None {
      var e :| e in events && Hear(schema, s, fields, body, marks, e) == None;
      assert Noticed(LoopFor(body, marks), fields, body, e.field);
    }
    if k: nat :| k < Length(fields) && Noticed(LoopFor(body, marks), fields, body, k) {
      assert Omitted(k) in events && Hear(schema, s, fields, body, marks, Omitted(k)) == None;
    }
  }

  /** A payload that lacks the one required field of the schema and is read all the same. */
  lemma MissingUnnoticed()
    ensures var fields := Deserialization.FieldDef(5, true, Deserialization.Scalar(BT_BOOL), Deserialization.NoFields);
            var body := Field(3, Num(BT_BOOL, 1), Field(7, Num(BT_BOOL, 1), Stop));
            && FieldMergeLaws.Absent(Tags(fields), LevelTags(body), 0)
            && Deserialization.DecodeLevel([Deserialization.StructDef(None, fields)], 0, fields, body, false)
               == Some(([], Stop))
  {
    var fields := Deserialization.FieldDef(5, true, Deserialization.Scalar(BT_BOOL), Deserialization.NoFields);
    assert Tags(fields) == [FieldTag(5, BT_BOOL)] + Tags(Deserialization.NoFields);
    var schema := [Deserialization.StructDef(None, fields)];
    var last := Field(7, Num(BT_BOOL, 1), Stop);
    assert Deserialization.LevelEnd(last, false) == Some(Stop);
    assert Deserialization.DecodeLevel(schema, 0, Deserialization.NoFields, last, false) == Some(([], Stop));
  }
}
