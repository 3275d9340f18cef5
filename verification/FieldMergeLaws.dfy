/** What the three merge loops have in common, and where they differ. */
module FieldMergeLaws {
  import opened Bytes
  import opened Wire
  import opened FieldMerge

  /** By number: structs, lists, sets and maps are 10 to 13. */
  predicate Composite(t: byte) { t == 10 || t == 11 || t == 12 || t == 13 }

  /** The events about payload fields. */
  function Data(events: seq<Event>): seq<Event> {
    if events == [] then []
    else (if events[0].Omitted? then [] else [events[0]]) + Data(events[1..])
  }

  lemma {:induction false} DataConcat(a: seq<Event>, b: seq<Event>)
    ensures Data(a + b) == Data(a) + Data(b)
  {
    if a == [] {
      assert a + b == b;
    } else {
      assert (a + b)[0] == a[0] && (a + b)[1..] == a[1..] + b;
      DataConcat(a[1..], b);
    }
  }

  lemma {:induction false} DataHasAll(events: seq<Event>, e: Event)
    requires e in events && !e.Omitted?
    ensures e in Data(events)
  {
    if events[0] != e {
      DataHasAll(events[1..], e);
    }
  }

  lemma {:induction false} GapHasNoData(loop: Loop, schema: seq<FieldTag>, payload: seq<FieldTag>, i: nat, k: nat)
    requires i <= |payload|
    ensures Data(Gap(loop, schema, payload, i, k)) == []
    decreases |schema| - k
  {
    if k < |schema| {
      GapHasNoData(loop, schema, payload, i, k + 1);
      var rest := Gap(loop, schema, payload, i, k + 1);
      assert [Omitted(k)] + rest == [Omitted(k)] + rest && ([Omitted(k)] + rest)[1..] == rest;
      assert [] + rest == rest;
    }
  }

  lemma DataCons(e: Event, rest: seq<Event>)
    requires !e.Omitted?
    ensures Data([e] + rest) == [e] + Data(rest)
  {
    assert ([e] + rest)[1..] == rest;
  }

  lemma EventOfField(loop: Loop, schema: seq<FieldTag>, payload: seq<FieldTag>, i: nat)
    requires i < |payload|
    ensures FieldEvent(loop, schema, payload, i).at == i && !FieldEvent(loop, schema, payload, i).Omitted?
  {
  }

  /** Every payload field gets exactly one event, in payload order. */
  lemma {:induction false} PayloadOrder(loop: Loop, schema: seq<FieldTag>, payload: seq<FieldTag>, i: nat)
    requires i <= |payload|
    ensures var data := Data(Merge(loop, schema, payload, i));
            |data| == |payload| - i
            && forall j :: 0 <= j < |data| ==>
                 data[j] == FieldEvent(loop, schema, payload, i + j) && data[j].at == i + j
    decreases |payload| - i
  {
    hide Gap, FieldEvent, Data;
    var gap := Gap(loop, schema, payload, i, 0);
    GapHasNoData(loop, schema, payload, i, 0);
    if i == |payload| {
      assert gap + [] == gap;
    } else {
      EventOfField(loop, schema, payload, i);
      var event := FieldEvent(loop, schema, payload, i);
      var rest := Merge(loop, schema, payload, i + 1);
      PayloadOrder(loop, schema, payload, i + 1);
      DataConcat(gap, [event] + rest);
      DataCons(event, rest);
    }
  }

  function Times(events: seq<Event>, e: Event): nat {
    multiset(events)[e]
  }

  lemma TimesConcat(a: seq<Event>, b: seq<Event>, e: Event)
    ensures Times(a + b, e) == Times(a, e) + Times(b, e)
  {
  }

  lemma TimesOne(a: Event, e: Event)
    ensures Times([a], e) == (if a == e then 1 else 0) && Times([], e) == 0
  {
  }

  lemma NoTimes(events: seq<Event>, e: Event)
    ensures Times(events, e) == 0 <==> e !in events
  {
  }

  /** Schema field `k` is found missing at position `i`. */
  predicate MissingAt(schema: seq<FieldTag>, payload: seq<FieldTag>, k: nat, i: nat)
    requires k < |schema| && i <= |payload|
  {
    Seen(payload, i) < schema[k].id && (i == |payload| || schema[k].id < payload[i].id)
  }

  lemma {:induction false} GapCount(loop: Loop, schema: seq<FieldTag>, payload: seq<FieldTag>, i: nat, from: nat,
                                    k: nat)
    requires i <= |payload| && k < |schema|
    ensures Times(Gap(loop, schema, payload, i, from), Omitted(k))
         == if from <= k && MissingAt(schema, payload, k, i) && Reports(loop, schema, payload, k, i) then 1 else 0
    decreases |schema| - from
  {
    hide Reports, Seen, Times;
    TimesOne(Omitted(from), Omitted(k));
    if from < |schema| {
      GapCount(loop, schema, payload, i, from + 1, k);
      var e := if MissingAt(schema, payload, from, i) && Reports(loop, schema, payload, from, i) then [Omitted(from)]
               else [];
      assert Gap(loop, schema, payload, i, from) == e + Gap(loop, schema, payload, i, from + 1);
      TimesConcat(e, Gap(loop, schema, payload, i, from + 1), Omitted(k));
    }
  }

  /** A schema field not passed yet at position `i` is reported omitted once or not at all: not if
      the first payload field that is not smaller has its identifier, and not if the loop does not
      report it when it gets there. Holds for any order of payload fields. */
  lemma {:induction false} OmittedCount(loop: Loop, schema: seq<FieldTag>, payload: seq<FieldTag>, i: nat, k: nat)
    requires i <= |payload| && k < |schema|
    ensures var r := Reach(payload, i, schema[k].id);
            Times(Merge(loop, schema, payload, i), Omitted(k))
            == if Seen(payload, i) < schema[k].id && (r == |payload| || payload[r].id != schema[k].id)
                  && Reports(loop, schema, payload, k, r) then 1 else 0
    decreases |payload| - i
  {
    hide Gap, Reports, FieldEvent, Merge, Times, Seen, Reach;
    GapCount(loop, schema, payload, i, 0, k);
    CountStep(loop, schema, payload, i, k);
    ReachStep(payload, i, schema[k].id);
    if i < |payload| {
      OmittedCount(loop, schema, payload, i + 1, k);
    }
  }

  lemma CountStep(loop: Loop, schema: seq<FieldTag>, payload: seq<FieldTag>, i: nat, k: nat)
    requires i <= |payload|
    ensures Times(Merge(loop, schema, payload, i), Omitted(k))
         == Times(Gap(loop, schema, payload, i, 0), Omitted(k))
          + if i == |payload| then 0 else Times(Merge(loop, schema, payload, i + 1), Omitted(k))
  {
    hide Times, Gap;
    var gap := Gap(loop, schema, payload, i, 0);
    if i == |payload| {
      assert Merge(loop, schema, payload, i) == gap;
    } else {
      var event, rest := FieldEvent(loop, schema, payload, i), Merge(loop, schema, payload, i + 1);
      assert Merge(loop, schema, payload, i) == gap + ([event] + rest);
      TimesConcat(gap, [event] + rest, Omitted(k));
      TimesConcat([event], rest, Omitted(k));
      TimesOne(event, Omitted(k));
    }
  }

  lemma ReachStep(payload: seq<FieldTag>, i: nat, id: nat)
    requires i <= |payload|
    ensures i == |payload| ==> Reach(payload, i, id) == i
    ensures i < |payload| ==>
              && Reach(payload, i, id) == (if payload[i].id >= id then i else Reach(payload, i + 1, id))
              && Seen(payload, i + 1) == if Seen(payload, i) > payload[i].id then Seen(payload, i) else payload[i].id
  {
  }

  /** Schema field `k` meets the first payload field that is not smaller. */
  predicate Meets(schema: seq<FieldTag>, payload: seq<FieldTag>, k: nat)
    requires k < |schema|
  {
    var r := Reach(payload, 0, schema[k].id);
    r < |payload| && payload[r].id == schema[k].id
  }

  /** With a schema known at run time, schema and payload are partitioned whatever the order of
      the payload. A schema field whose identifier is that of the field it meets is used up by it,
      known unless that is of another type and composite, else unknown; it is never omitted and never
      known again. Any
      other schema field is omitted, exactly once, and never known. */
  lemma {:induction false} RuntimePartition(schema: seq<FieldTag>, payload: seq<FieldTag>, k: nat)
    requires Ascending(schema) && k < |schema|
    ensures Times(Merge(Runtime, schema, payload, 0), Omitted(k)) == if Meets(schema, payload, k) then 0 else 1
    ensures Meets(schema, payload, k) ==>
              var r := Reach(payload, 0, schema[k].id);
              |Data(Merge(Runtime, schema, payload, 0))| == |payload|
              && Data(Merge(Runtime, schema, payload, 0))[r]
                 == if !Composite(payload[r].t) || payload[r].t == schema[k].t then Known(k, r) else Unknown(r)
    ensures forall i :: Known(k, i) in Merge(Runtime, schema, payload, 0) ==>
              Meets(schema, payload, k) && i == Reach(payload, 0, schema[k].id)
  {
    assert Seen(payload, 0) == -1;
    hide Gap, Merge, Accepts, Data, Find, FieldEvent, Times, Seen, Reach, Ascending;
    OmittedCount(Runtime, schema, payload, 0, k);
    if Meets(schema, payload, k) {
      UsedUp(schema, payload, Reach(payload, 0, schema[k].id), k);
    }
    forall i: nat | Known(k, i) in Merge(Runtime, schema, payload, 0)
      ensures Meets(schema, payload, k) && i == Reach(payload, 0, schema[k].id)
    {
      DataHasAll(Merge(Runtime, schema, payload, 0), Known(k, i));
      KnownAt(schema, payload, i, k);
    }
  }

  lemma KnownAt(schema: seq<FieldTag>, payload: seq<FieldTag>, i: nat, k: nat)
    requires k < |schema| && Known(k, i) in Data(Merge(Runtime, schema, payload, 0))
    ensures i == Reach(payload, 0, schema[k].id) < |payload| && payload[i].id == schema[k].id
  {
    hide Gap, Merge, Accepts;
    PayloadOrder(Runtime, schema, payload, 0);
    assert Known(k, i) == FieldEvent(Runtime, schema, payload, i);
    SeenFrom(payload, i, payload[i].id);
  }

  lemma UsedUp(schema: seq<FieldTag>, payload: seq<FieldTag>, r: nat, k: nat)
    requires Ascending(schema) && k < |schema| && r == Reach(payload, 0, schema[k].id) < |payload|
    requires payload[r].id == schema[k].id
    ensures |Data(Merge(Runtime, schema, payload, 0))| == |payload|
    ensures Data(Merge(Runtime, schema, payload, 0))[r]
         == if !Composite(payload[r].t) || payload[r].t == schema[k].t then Known(k, r) else Unknown(r)
  {
    hide Data, Merge;
    PayloadOrder(Runtime, schema, payload, 0);
    FindIs(schema, schema[k].id, k);
    SeenFrom(payload, r, schema[k].id);
  }

  /** Payload field `i` has the identifier of schema field `k`, none before it is greater, and the types are
      equal or neither is composite. */
  ghost predicate Converts(schema: seq<FieldTag>, payload: seq<FieldTag>, k: nat, i: nat)
    requires k < |schema|
  {
    && i < |payload| && payload[i].id == schema[k].id
    && (forall j :: 0 <= j < i ==> payload[j].id <= payload[i].id)
    && (payload[i].t == schema[k].t || (!Composite(payload[i].t) && !Composite(schema[k].t)))
  }

  /** With a schema known at compile time exactly those payload fields are known. A schema field is omitted,
      once, exactly if the first payload field that is not smaller is greater, or there is none, and the loop
      has only just come to it. */
  lemma {:induction false} StaticPartition(schema: seq<FieldTag>, payload: seq<FieldTag>, k: nat)
    requires Ascending(schema) && k < |schema|
    ensures Times(Merge(Static, schema, payload, 0), Omitted(k))
         == if !Meets(schema, payload, k) && Reach(payload, 0, schema[k].id) == Arrival(Static, schema, payload, k)
            then 1 else 0
    ensures forall i: nat :: Known(k, i) in Merge(Static, schema, payload, 0) <==> Converts(schema, payload, k, i)
  {
    assert Seen(payload, 0) == -1;
    hide Merge, Times, Reach, Arrival, Seen, Converts, Ascending;
    OmittedCount(Static, schema, payload, 0, k);
    forall i: nat
      ensures Known(k, i) in Merge(Static, schema, payload, 0) <==> Converts(schema, payload, k, i)
    {
      StaticKnown(schema, payload, k, i);
    }
  }

  lemma {:induction false} StaticKnown(schema: seq<FieldTag>, payload: seq<FieldTag>, k: nat, i: nat)
    requires Ascending(schema) && k < |schema|
    ensures Known(k, i) in Merge(Static, schema, payload, 0) <==> Converts(schema, payload, k, i)
  {
    hide Merge, Data, Gap;
    var events := Merge(Static, schema, payload, 0);
    PayloadOrder(Static, schema, payload, 0);
    if Known(k, i) in events {
      DataHasAll(events, Known(k, i));
      SeenFrom(payload, i, payload[i].id + 1);
    } else if i < |payload| && payload[i].id == schema[k].id {
      FindIs(schema, schema[k].id, k);
      SeenFrom(payload, i, payload[i].id + 1);
      assert Data(events)[i] == FieldEvent(Static, schema, payload, i);
      if FieldEvent(Static, schema, payload, i) == Known(k, i) {
        DataIsThere(events, Known(k, i));
      }
    }
  }

  lemma {:induction false} DataIsThere(events: seq<Event>, e: Event)
    requires e in Data(events)
    ensures e in events
  {
    if !(events[0] == e) {
      DataIsThere(events[1..], e);
    }
  }

  /** The C# loop, for any order of the payload and any identifier in the marker at its end: a schema
      field is known exactly by the payload field it meets, if the identifiers are equal; else it is
      reported missing if the loop considers it only there, or the level ends there with a marker that
      is not beyond it, and passed over in silence if not. */
  lemma TaggedPartition(schema: seq<FieldTag>, payload: seq<FieldTag>, stop: nat, k: nat)
    requires Ascending(schema) && k < |schema|
    ensures var r := Reach(payload, 0, schema[k].id);
            Omitted(k) in Merge(Tagged(stop), schema, payload, 0)
            <==> !Meets(schema, payload, k)
                 && (r == Arrival(Tagged(stop), schema, payload, k) || (r == |payload| && stop <= schema[k].id))
    ensures forall i :: Known(k, i) in Merge(Tagged(stop), schema, payload, 0)
                   <==> Meets(schema, payload, k) && i == Reach(payload, 0, schema[k].id)
  {
    assert Seen(payload, 0) == -1;
    hide Merge, Times, Reach, Arrival, Seen, Data, Find, Gap, Ascending;
    OmittedCount(Tagged(stop), schema, payload, 0, k);
    NoTimes(Merge(Tagged(stop), schema, payload, 0), Omitted(k));
    forall i: nat ensures Known(k, i) in Merge(Tagged(stop), schema, payload, 0)
                     <==> Meets(schema, payload, k) && i == Reach(payload, 0, schema[k].id)
    {
      KnownIff(schema, payload, stop, k, i);
    }
  }

  lemma KnownIff(schema: seq<FieldTag>, payload: seq<FieldTag>, stop: nat, k: nat, i: nat)
    requires Ascending(schema) && k < |schema|
    ensures Known(k, i) in Merge(Tagged(stop), schema, payload, 0)
       <==> Meets(schema, payload, k) && i == Reach(payload, 0, schema[k].id)
  {
    hide Merge, Data, Gap, Reach, Seen;
    var events := Merge(Tagged(stop), schema, payload, 0);
    PayloadOrder(Tagged(stop), schema, payload, 0);
    if Known(k, i) in events {
      DataHasAll(events, Known(k, i));
      ReachIs(payload, i, schema[k].id);
    } else if Meets(schema, payload, k) && i == Reach(payload, 0, schema[k].id) {
      SeenFrom(payload, i, schema[k].id);
      FindIs(schema, schema[k].id, k);
      assert Data(events)[i] == FieldEvent(Tagged(stop), schema, payload, i) == Known(k, i);
      DataIsThere(events, Known(k, i));
    }
  }

  // ----------------------------------------------------- agreement of the loops

  /** Fields with equal identifiers have equal types or none that is composite. */
  predicate Agreeing(schema: seq<FieldTag>, payload: seq<FieldTag>) {
    forall k, i :: 0 <= k < |schema| && 0 <= i < |payload| && schema[k].id == payload[i].id ==>
      schema[k].t == payload[i].t || (!Composite(schema[k].t) && !Composite(payload[i].t))
  }

  predicate NoRepeats(payload: seq<FieldTag>) {
    forall i, j :: 0 <= i < j < |payload| ==> payload[i].id != payload[j].id
  }

  /** Only repeated identifiers tell the compile-time loop from the others here. */
  predicate Comparable(a: Loop, b: Loop, payload: seq<FieldTag>) {
    (a == Static) == (b == Static) || NoRepeats(payload)
  }

  lemma SameTurn(a: Loop, b: Loop, payload: seq<FieldTag>, i: nat)
    requires Comparable(a, b, payload) && i < |payload|
    ensures InTurn(a, payload, i) == InTurn(b, payload, i)
  {
    SeenFrom(payload, i, payload[i].id);
    SeenFrom(payload, i, payload[i].id + 1);
  }

  lemma SameFieldEvents(a: Loop, b: Loop, schema: seq<FieldTag>, payload: seq<FieldTag>, i: nat)
    requires Agreeing(schema, payload) && Comparable(a, b, payload) && i < |payload|
    ensures FieldEvent(a, schema, payload, i) == FieldEvent(b, schema, payload, i)
  {
    hide InTurn;
    SameTurn(a, b, payload, i);
  }

  /** All loops hand over the same known and the same unknown fields in the same order, whatever the
      order of the payload. */
  lemma SameData(a: Loop, b: Loop, schema: seq<FieldTag>, payload: seq<FieldTag>)
    requires Agreeing(schema, payload) && Comparable(a, b, payload)
    ensures Data(Merge(a, schema, payload, 0)) == Data(Merge(b, schema, payload, 0))
  {
    hide Merge, FieldEvent;
    PayloadOrder(a, schema, payload, 0);
    PayloadOrder(b, schema, payload, 0);
    forall i | 0 <= i < |payload|
      ensures FieldEvent(a, schema, payload, i) == FieldEvent(b, schema, payload, i)
    {
      SameFieldEvents(a, b, schema, payload, i);
    }
  }

  /** Of a repeated field the compile-time loop makes two known ones, the others one. */
  lemma RepeatsDiffer(stop: nat)
    ensures var schema, payload := [FieldTag(5, BT_BOOL)], [FieldTag(5, BT_BOOL), FieldTag(5, BT_BOOL)];
            && FieldEvent(Static, schema, payload, 1) == Known(0, 1)
            && FieldEvent(Tagged(stop), schema, payload, 1) == FieldEvent(Runtime, schema, payload, 1) == Unknown(1)
  {
    var payload := [FieldTag(5, BT_BOOL), FieldTag(5, BT_BOOL)];
    assert Seen(payload, 0) == -1 && Seen(payload, 1) == 5;
  }

  /** What the C# loop reports omitted, the run-time loop does, for any payload. */
  lemma {:induction false} OmittedSubset(schema: seq<FieldTag>, payload: seq<FieldTag>, stop: nat, k: nat)
    requires k < |schema|
    ensures Times(Merge(Tagged(stop), schema, payload, 0), Omitted(k))
         <= Times(Merge(Runtime, schema, payload, 0), Omitted(k))
    ensures Ascending(payload) ==>
              Times(Merge(Static, schema, payload, 0), Omitted(k))
              <= Times(Merge(Tagged(stop), schema, payload, 0), Omitted(k))
  {
    hide Merge, Times, Reach, Arrival;
    OmittedCount(Static, schema, payload, 0, k);
    OmittedCount(Tagged(stop), schema, payload, 0, k);
    OmittedCount(Runtime, schema, payload, 0, k);
    if Ascending(payload) {
      ArrivalAbove(Static, schema, payload, k);
      ArrivalAbove(Tagged(stop), schema, payload, k);
    }
  }

  predicate Absent(schema: seq<FieldTag>, payload: seq<FieldTag>, k: nat)
    requires k < |schema|
  {
    forall i :: 0 <= i < |payload| ==> payload[i].id != schema[k].id
  }

  /** An absent field that the loop passes without a report: an unknown field stands between it
      and the schema field before it and, for the C# loop, some field or the marker at the end is beyond it. */
  predicate Overlooked(loop: Loop, schema: seq<FieldTag>, payload: seq<FieldTag>, k: nat)
    requires k < |schema|
  {
    && Absent(schema, payload, k)
    && (exists i :: 0 <= i < |payload| && Before(schema, k) < payload[i].id < schema[k].id)
    && match loop
       case Runtime => false
       case Static => true
       case Tagged(stop) => schema[k].id < stop || exists i :: 0 <= i < |payload| && schema[k].id < payload[i].id
  }

  lemma MissingIsReach(schema: seq<FieldTag>, payload: seq<FieldTag>, k: nat, i: nat)
    requires Ascending(payload) && k < |schema| && i <= |payload|
    ensures MissingAt(schema, payload, k, i) <==> Absent(schema, payload, k) && i == Reach(payload, 0, schema[k].id)
  {
    SeenFrom(payload, i, schema[k].id);
    var r := Reach(payload, 0, schema[k].id);
    if MissingAt(schema, payload, k, i) {
      assert i == r;
      assert Absent(schema, payload, k) by {
        forall j | 0 <= j < |payload| ensures payload[j].id != schema[k].id {
          if i < j { assert payload[i].id < payload[j].id; }
        }
      }
    }
  }

  /** In an ascending payload a schema field is first considered at the first payload field beyond
      the schema field before it. */
  lemma ArrivalAbove(loop: Loop, schema: seq<FieldTag>, payload: seq<FieldTag>, k: nat)
    requires Ascending(payload) && k < |schema|
    ensures var i := Arrival(loop, schema, payload, k);
            && (forall j :: 0 <= j < i ==> payload[j].id <= Before(schema, k))
            && (forall j :: i <= j < |payload| ==> payload[j].id > Before(schema, k))
    ensures Arrival(loop, schema, payload, k) == Arrival(Static, schema, payload, k)
  {
    hide Reach;
    var i := Arrival(loop, schema, payload, k);
    if k > 0 {
      var r := Reach(payload, 0, schema[k - 1].id);
      var above := Reach(payload, 0, schema[k - 1].id + 1);
      forall j | i <= j < |payload| ensures payload[j].id > Before(schema, k) {
        if loop != Static && r < j { assert payload[r].id < payload[j].id; }
        if loop == Static && above < j { assert payload[above].id < payload[j].id; }
      }
      assert above < i ==> payload[above].id <= Before(schema, k);
      assert i < |payload| ==> payload[i].id > Before(schema, k);
    }
  }

  lemma ReportedAtReach(loop: Loop, schema: seq<FieldTag>, payload: seq<FieldTag>, k: nat)
    requires Ascending(payload) && k < |schema| && Absent(schema, payload, k)
    requires Ascending(schema)
    ensures Reports(loop, schema, payload, k, Reach(payload, 0, schema[k].id))
       <==> !Overlooked(loop, schema, payload, k)
  {
    hide Reach, Arrival, Absent;
    var r, i := Reach(payload, 0, schema[k].id), Arrival(loop, schema, payload, k);
    ArrivalAbove(loop, schema, payload, k);
    Beyond(schema, payload, k);
    assert i <= r;
    if i < r {
      assert Before(schema, k) < payload[i].id < schema[k].id;
    } else {
      assert forall j :: 0 <= j < |payload| ==> !(Before(schema, k) < payload[j].id < schema[k].id);
    }
  }

  /** All payload fields from where an absent field is reached are beyond it. */
  lemma Beyond(schema: seq<FieldTag>, payload: seq<FieldTag>, k: nat)
    requires Ascending(payload) && k < |schema| && Absent(schema, payload, k)
    ensures var r := Reach(payload, 0, schema[k].id); forall j :: r <= j < |payload| ==> payload[j].id > schema[k].id
  {
    hide Reach;
    var r := Reach(payload, 0, schema[k].id);
    forall j | r <= j < |payload| ensures payload[j].id > schema[k].id {
      if r < j { assert payload[r].id < payload[j].id; }
    }
  }

  /** Each loop reports exactly the absent fields it does not overlook, and each of them once. */
  lemma {:induction false} OmittedExactly(loop: Loop, schema: seq<FieldTag>, payload: seq<FieldTag>, k: nat)
    requires Ascending(schema) && Ascending(payload) && k < |schema|
    ensures Times(Merge(loop, schema, payload, 0), Omitted(k))
         == if Absent(schema, payload, k) && !Overlooked(loop, schema, payload, k) then 1 else 0
  {
    hide Merge, Reports, Overlooked;
    OmittedCount(loop, schema, payload, 0, k);
    var r := Reach(payload, 0, schema[k].id);
    MissingIsReach(schema, payload, k, r);
    SeenFrom(payload, r, schema[k].id);
    if Absent(schema, payload, k) {
      ReportedAtReach(loop, schema, payload, k);
    }
  }

  lemma {:induction false} SameGap(loop: Loop, schema: seq<FieldTag>, payload: seq<FieldTag>, i: nat, k: nat)
    requires Ascending(schema) && Ascending(payload) && i <= |payload|
    requires forall h :: 0 <= h < |schema| ==> !Overlooked(loop, schema, payload, h)
    ensures Gap(loop, schema, payload, i, k) == Gap(Runtime, schema, payload, i, k)
    decreases |schema| - k
  {
    if k < |schema| {
      hide Reports, Overlooked, Seen;
      SameGap(loop, schema, payload, i, k + 1);
      MissingIsReach(schema, payload, k, i);
      if MissingAt(schema, payload, k, i) {
        ReportedAtReach(loop, schema, payload, k);
        ReportedAtReach(Runtime, schema, payload, k);
        assert !Overlooked(Runtime, schema, payload, k) by { RuntimeSeesAll(schema, payload, k); }
      }
    }
  }

  lemma RuntimeSeesAll(schema: seq<FieldTag>, payload: seq<FieldTag>, k: nat)
    requires k < |schema|
    ensures !Overlooked(Runtime, schema, payload, k)
  {
  }

  lemma {:induction false} SameMerge(loop: Loop, schema: seq<FieldTag>, payload: seq<FieldTag>, i: nat)
    requires Ascending(schema) && Ascending(payload) && Agreeing(schema, payload) && i <= |payload|
    requires forall h :: 0 <= h < |schema| ==> !Overlooked(loop, schema, payload, h)
    ensures Merge(loop, schema, payload, i) == Merge(Runtime, schema, payload, i)
    decreases |payload| - i
  {
    hide Gap, FieldEvent, Overlooked;
    SameGap(loop, schema, payload, i, 0);
    if i < |payload| {
      SameFieldEvents(loop, Runtime, schema, payload, i);
      SameMerge(loop, schema, payload, i + 1);
    }
  }

  /** The loops are indistinguishable exactly when no absent field is overlooked. */
  lemma SameEvents(loop: Loop, schema: seq<FieldTag>, payload: seq<FieldTag>)
    requires Ascending(schema) && Ascending(payload) && Agreeing(schema, payload)
    ensures Merge(loop, schema, payload, 0) == Merge(Runtime, schema, payload, 0)
       <==> forall k :: 0 <= k < |schema| ==> !Overlooked(loop, schema, payload, k)
  {
    hide Merge, Overlooked;
    if Merge(loop, schema, payload, 0) == Merge(Runtime, schema, payload, 0) {
      forall k | 0 <= k < |schema| ensures !Overlooked(loop, schema, payload, k) {
        OmittedExactly(loop, schema, payload, k);
        OmittedExactly(Runtime, schema, payload, k);
        RuntimeSeesAll(schema, payload, k);
        assert Overlooked(loop, schema, payload, k) ==> Absent(schema, payload, k) by {
          OverlookedIsAbsent(loop, schema, payload, k);
        }
      }
    } else if forall k :: 0 <= k < |schema| ==> !Overlooked(loop, schema, payload, k) {
      SameMerge(loop, schema, payload, 0);
    }
  }

  lemma OverlookedIsAbsent(loop: Loop, schema: seq<FieldTag>, payload: seq<FieldTag>, k: nat)
    requires k < |schema|
    ensures Overlooked(loop, schema, payload, k) ==> Absent(schema, payload, k)
  {
  }

  /** Payloads without unknown fields are such a case. */
  lemma NoUnknownFields(loop: Loop, schema: seq<FieldTag>, payload: seq<FieldTag>)
    requires Ascending(schema) && Ascending(payload) && Agreeing(schema, payload)
    requires forall i :: 0 <= i < |payload| ==> Find(schema, payload[i].id, 0).Some?
    ensures Merge(loop, schema, payload, 0) == Merge(Runtime, schema, payload, 0)
  {
    hide Merge;
    forall k | 0 <= k < |schema| ensures !Overlooked(loop, schema, payload, k) {
      forall i | 0 <= i < |payload| ensures !(Before(schema, k) < payload[i].id < schema[k].id) {
        var j := Find(schema, payload[i].id, 0).value;
        if j < k { assert j == k - 1 || schema[j].id < schema[k - 1].id; }
      }
    }
    SameEvents(loop, schema, payload);
  }

  /** Both loops without a run-time schema may pass over a missing field in silence. */
  lemma MayOverlook(stop: nat)
    ensures var schema, payload := [FieldTag(5, BT_BOOL)], [FieldTag(3, BT_BOOL), FieldTag(7, BT_BOOL)];
            && Omitted(0) in Merge(Runtime, schema, payload, 0)
            && Omitted(0) !in Merge(Static, schema, payload, 0)
            && Omitted(0) !in Merge(Tagged(stop), schema, payload, 0)
  {
    var schema, payload := [FieldTag(5, BT_BOOL)], [FieldTag(3, BT_BOOL), FieldTag(7, BT_BOOL)];
    assert Before(schema, 0) < payload[0].id < schema[0].id < payload[1].id;
    assert Ascending(schema) && Ascending(payload) && Absent(schema, payload, 0);
    forall loop ensures Omitted(0) in Merge(loop, schema, payload, 0) <==> loop == Runtime {
      hide Merge, Times, Absent, Ascending;
      assert Overlooked(loop, schema, payload, 0) <==> loop != Runtime;
      OmittedExactly(loop, schema, payload, 0);
      NoTimes(Merge(loop, schema, payload, 0), Omitted(0));
    }
  }

  /** Out of order the compile-time loop may report a field that the C# loop passes over. */
  lemma OrderMatters(stop: nat)
    ensures var schema := [FieldTag(5, BT_BOOL), FieldTag(7, BT_BOOL)];
            var payload := [FieldTag(5, BT_BOOL), FieldTag(3, BT_BOOL), FieldTag(9, BT_BOOL)];
            && Omitted(1) in Merge(Static, schema, payload, 0)
            && Omitted(1) !in Merge(Tagged(stop), schema, payload, 0)
  {
    var schema := [FieldTag(5, BT_BOOL), FieldTag(7, BT_BOOL)];
    var payload := [FieldTag(5, BT_BOOL), FieldTag(3, BT_BOOL), FieldTag(9, BT_BOOL)];
    assert Reach(payload, 0, 7) == Reach(payload, 0, 6) == 2 && Reach(payload, 0, 5) == 0 by {
      assert payload[0].id == 5 && payload[1].id == 3 && payload[2].id == 9;
    }
    assert Seen(payload, 0) == -1;
    hide Merge, Reach, Times, Seen;
    OmittedCount(Static, schema, payload, 0, 1);
    OmittedCount(Tagged(stop), schema, payload, 0, 1);
    forall loop { NoTimes(Merge(loop, schema, payload, 0), Omitted(1)); }
  }
}
