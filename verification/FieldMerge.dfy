/** How parsers merge the fields of one level of a schema, in ascending order of identifier, with
    the tagged fields of a payload. Three loops do it: two in C++, for a schema known at run time
    or at compile time, and the one the C# tagged parser generates. */
module FieldMerge {
  import opened Wire
  import opened Bytes

  datatype FieldTag = FieldTag(id: nat, t: byte)

  /** What a transform is told: payload field `at` stands for schema field `field`, payload field
      `at` is unknown, schema field `field` is not in the payload. */
  datatype Event =
    | Known(field: nat, at: nat)
    | Unknown(at: nat)
    | Omitted(field: nat)

  /** The loops; the C# one also compares the identifier `stop` of the marker at the end of the level. */
  datatype Loop = Runtime | Static | Tagged(stop: nat)

  predicate Ascending(fields: seq<FieldTag>) {
    forall i, j :: 0 <= i < j < |fields| ==> fields[i].id < fields[j].id
  }

  predicate Basic(t: byte) { t != BT_STRUCT && t != BT_LIST && t != BT_SET && t != BT_MAP }

  /** Which types the loops hand over as a known field once the identifiers are equal. The C# loop
      leaves a mismatch to the field's own code. */
  predicate Accepts(loop: Loop, declared: byte, actual: byte) {
    match loop
    case Runtime => Basic(actual) || declared == actual
    case Static => declared == actual || (Basic(declared) && Basic(actual))
    case Tagged(_) => true
  }

  // --------------------------------------------------- what the loops amount to

  /** The greatest identifier before position `i`. */
  function Seen(payload: seq<FieldTag>, i: nat): int
    requires i <= |payload|
  {
    if i == 0 then -1
    else if Seen(payload, i - 1) > payload[i - 1].id then Seen(payload, i - 1)
    else payload[i - 1].id
  }

  /** The schema field with identifier `id`, looking from `k` on. */
  function Find(schema: seq<FieldTag>, id: nat, k: nat): (r: Option<nat>)
    ensures r.Some? ==> k <= r.value < |schema| && schema[r.value].id == id
    ensures r == None ==> forall j :: k <= j < |schema| ==> schema[j].id != id
    decreases |schema| - k
  {
    if k >= |schema| then None else if schema[k].id == id then Some(k) else Find(schema, id, k + 1)
  }

  /** Whether payload field `i` is not behind: none before it is greater or, except for the loop for
      compile-time schemas, equal. */
  predicate InTurn(loop: Loop, payload: seq<FieldTag>, i: nat)
    requires i < |payload|
  {
    if loop == Static then Seen(payload, i) <= payload[i].id else Seen(payload, i) < payload[i].id
  }

  /** A payload field is known if its identifier is in the schema, it is not behind, and its type is
      accepted. */
  function FieldEvent(loop: Loop, schema: seq<FieldTag>, payload: seq<FieldTag>, i: nat): Event
    requires i < |payload|
  {
    var k := Find(schema, payload[i].id, 0);
    if k.Some? && InTurn(loop, payload, i) && Accepts(loop, schema[k.value].t, payload[i].t)
    then Known(k.value, i)
    else Unknown(i)
  }

  /** The first position from `i` on with an identifier of `id` or more, or the end. */
  function Reach(payload: seq<FieldTag>, i: nat, id: nat): (r: nat)
    requires i <= |payload|
    ensures i <= r <= |payload| && (r < |payload| ==> payload[r].id >= id)
    ensures forall j :: i <= j < r ==> payload[j].id < id
    decreases |payload| - i
  {
    if i == |payload| || payload[i].id >= id then i else Reach(payload, i + 1, id)
  }

  /** The identifier before schema field `k`. */
  function Before(schema: seq<FieldTag>, k: nat): int
    requires k <= |schema|
  {
    if k == 0 then -1 else schema[k - 1].id
  }

  /** The position at which a loop first considers schema field `k`. The loop for compile-time
      schemas leaves a field for the next only at a greater identifier, so that one field may be
      known several times; the C# loop also leaves it when it has been known. */
  function Arrival(loop: Loop, schema: seq<FieldTag>, payload: seq<FieldTag>, k: nat): (i: nat)
    requires k < |schema|
    ensures i <= |payload|
  {
    if k == 0 then 0
    else if loop == Static then Reach(payload, 0, schema[k - 1].id + 1)
    else
      var r := Reach(payload, 0, schema[k - 1].id);
      if r < |payload| && payload[r].id == schema[k - 1].id then r + 1 else r
  }

  /** Whether the loop reports schema field `k`, absent from the payload, when it passes it at
      position `i`. The loop for compile-time schemas does only if it has just come to it; so does
      the C# loop, except that at the end of the level it reports what its marker is not beyond. */
  predicate Reports(loop: Loop, schema: seq<FieldTag>, payload: seq<FieldTag>, k: nat, i: nat)
    requires k < |schema| && i <= |payload|
  {
    match loop
    case Runtime => true
    case Static => i == Arrival(Static, schema, payload, k)
    case Tagged(stop) => i == Arrival(loop, schema, payload, k) || (i == |payload| && stop <= schema[k].id)
  }

  /** The schema fields from `k` on that lie between the payload fields before `i` and field `i`. */
  function Gap(loop: Loop, schema: seq<FieldTag>, payload: seq<FieldTag>, i: nat, k: nat): seq<Event>
    requires i <= |payload|
    decreases |schema| - k
  {
    if k >= |schema| then []
    else
      (if Seen(payload, i) < schema[k].id && (i == |payload| || schema[k].id < payload[i].id)
          && Reports(loop, schema, payload, k, i)
       then [Omitted(k)] else [])
      + Gap(loop, schema, payload, i, k + 1)
  }

  /** The join of schema and payload, from payload position `i` on. */
  function Merge(loop: Loop, schema: seq<FieldTag>, payload: seq<FieldTag>, i: nat): seq<Event>
    requires i <= |payload|
    decreases |payload| - i
  {
    Gap(loop, schema, payload, i, 0)
    + if i == |payload| then []
      else [FieldEvent(loop, schema, payload, i)] + Merge(loop, schema, payload, i + 1)
  }

  // ------------------------------------------------------------------ the loops

  /** What is to be reported from payload field `i` on. */
  function Onward(loop: Loop, schema: seq<FieldTag>, payload: seq<FieldTag>, i: nat): seq<Event>
    requires i <= |payload|
  {
    if i == |payload| then []
    else [FieldEvent(loop, schema, payload, i)] + Merge(loop, schema, payload, i + 1)
  }

  /** What is still to be reported at payload position `i`, the schema fields before `k` done. */
  function Rest(loop: Loop, schema: seq<FieldTag>, payload: seq<FieldTag>, i: nat, k: nat): seq<Event>
    requires i <= |payload|
  {
    Gap(loop, schema, payload, i, k) + Onward(loop, schema, payload, i)
  }

  /** `events` and what is still to be reported make up the join. */
  ghost predicate OnTrack(loop: Loop, schema: seq<FieldTag>, payload: seq<FieldTag>, i: nat, k: nat,
                          events: seq<Event>) {
    i <= |payload| && events + Rest(loop, schema, payload, i, k) == Merge(loop, schema, payload, 0)
  }

  /** Schema fields before `k` are done with: none is greater than what has been seen. */
  predicate Done(schema: seq<FieldTag>, payload: seq<FieldTag>, k: nat, i: nat)
    requires i <= |payload|
  {
    k <= |schema| && forall j :: 0 <= j < k ==> schema[j].id <= Seen(payload, i)
  }

  predicate Ahead(schema: seq<FieldTag>, payload: seq<FieldTag>, k: nat, i: nat)
    requires i <= |payload|
  {
    forall j :: k <= j < |schema| ==> schema[j].id > Seen(payload, i)
  }

  lemma {:induction false} GapSkip(loop: Loop, schema: seq<FieldTag>, payload: seq<FieldTag>, i: nat, j: nat, k: nat)
    requires i <= |payload| && j <= k && Done(schema, payload, k, i)
    ensures Gap(loop, schema, payload, i, j) == Gap(loop, schema, payload, i, k)
    decreases k - j
  {
    if j < k {
      GapSkip(loop, schema, payload, i, j + 1, k);
    }
  }

  lemma {:induction false} GapEnd(loop: Loop, schema: seq<FieldTag>, payload: seq<FieldTag>, i: nat, k: nat)
    requires i < |payload|
    requires forall h :: k <= h < |schema| ==> schema[h].id >= payload[i].id
    ensures Gap(loop, schema, payload, i, k) == []
    decreases |schema| - k
  {
    if k < |schema| {
      GapEnd(loop, schema, payload, i, k + 1);
    }
  }

  lemma Arrive(loop: Loop, schema: seq<FieldTag>, payload: seq<FieldTag>, i: nat, k: nat)
    requires i <= |payload| && Done(schema, payload, k, i)
    ensures Merge(loop, schema, payload, i) == Rest(loop, schema, payload, i, k)
  {
    hide Gap, FieldEvent;
    GapSkip(loop, schema, payload, i, 0, k);
  }

  lemma Begin(loop: Loop, schema: seq<FieldTag>, payload: seq<FieldTag>)
    ensures OnTrack(loop, schema, payload, 0, 0, [])
  {
    hide Merge, Rest;
    Arrive(loop, schema, payload, 0, 0);
    assert [] + Rest(loop, schema, payload, 0, 0) == Rest(loop, schema, payload, 0, 0);
  }

  lemma Track(loop: Loop, schema: seq<FieldTag>, payload: seq<FieldTag>, i: nat, k: nat, i': nat, k': nat,
              events: seq<Event>, more: seq<Event>)
    requires OnTrack(loop, schema, payload, i, k, events) && i' <= |payload|
    requires Rest(loop, schema, payload, i, k) == more + Rest(loop, schema, payload, i', k')
    ensures OnTrack(loop, schema, payload, i', k', events + more)
    ensures more == [] ==> OnTrack(loop, schema, payload, i', k', events)
  {
    hide Rest, Merge;
    var rest := Rest(loop, schema, payload, i', k');
    assert events + (more + rest) == events + more + rest;
    if more == [] {
      assert events + more == events;
    }
  }

  lemma GapStep(loop: Loop, schema: seq<FieldTag>, payload: seq<FieldTag>, i: nat, k: nat)
    requires i <= |payload| && k < |schema| && (i == |payload| || schema[k].id < payload[i].id)
    ensures Gap(loop, schema, payload, i, k)
         == (if Seen(payload, i) < schema[k].id && Reports(loop, schema, payload, k, i) then [Omitted(k)] else [])
          + Gap(loop, schema, payload, i, k + 1)
  {
    hide Seen, Reports;
  }

  /** Schema field `k` is passed at position `i`. */
  lemma PassStep(loop: Loop, schema: seq<FieldTag>, payload: seq<FieldTag>, i: nat, k: nat)
    requires i <= |payload| && k < |schema| && (i == |payload| || schema[k].id < payload[i].id)
    ensures Rest(loop, schema, payload, i, k)
         == (if Seen(payload, i) < schema[k].id && Reports(loop, schema, payload, k, i) then [Omitted(k)] else [])
          + Rest(loop, schema, payload, i, k + 1)
  {
    hide Gap, Onward, Seen, Reports;
    GapStep(loop, schema, payload, i, k);
    var e := if Seen(payload, i) < schema[k].id && Reports(loop, schema, payload, k, i) then [Omitted(k)] else [];
    var gap, onward := Gap(loop, schema, payload, i, k + 1), Onward(loop, schema, payload, i);
    assert e + gap + onward == e + (gap + onward);
  }

  /** Field `i` is reported; `k'` schema fields are done with after it. */
  lemma ReportStep(loop: Loop, schema: seq<FieldTag>, payload: seq<FieldTag>, i: nat, k: nat, k': nat)
    requires i < |payload| && k <= k' && Done(schema, payload, k', i + 1)
    requires forall j :: k <= j < |schema| ==> schema[j].id >= payload[i].id
    ensures Rest(loop, schema, payload, i, k)
         == [FieldEvent(loop, schema, payload, i)] + Rest(loop, schema, payload, i + 1, k')
  {
    GapEnd(loop, schema, payload, i, k);
    Arrive(loop, schema, payload, i + 1, k');
    hide Gap, FieldEvent, Merge;
    assert Rest(loop, schema, payload, i, k) == [] + Onward(loop, schema, payload, i);
  }

  lemma FindIs(schema: seq<FieldTag>, id: nat, k: nat)
    requires Ascending(schema) && k <= |schema|
    requires forall j :: 0 <= j < k ==> schema[j].id < id
    requires forall j :: k <= j < |schema| ==> schema[j].id >= id
    ensures Find(schema, id, 0) == if k < |schema| && schema[k].id == id then Some(k) else None
  {
  }

  lemma AtEnd(loop: Loop, schema: seq<FieldTag>, payload: seq<FieldTag>, events: seq<Event>)
    requires OnTrack(loop, schema, payload, |payload|, |schema|, events)
    ensures events == Merge(loop, schema, payload, 0)
  {
  }

  /** Schema fields before `k` have been left behind by what comes before or at position `i`. */
  predicate Left(loop: Loop, schema: seq<FieldTag>, payload: seq<FieldTag>, k: nat, i: nat)
    requires i <= |payload|
  {
    && k <= |schema|
    && forall j :: 0 <= j < k ==>
         || schema[j].id < Seen(payload, i) || (loop != Static && schema[j].id == Seen(payload, i))
         || i == |payload| || schema[j].id < payload[i].id
  }

  /** The event for field `i` when `k` is where its identifier belongs. */
  lemma EventAt(loop: Loop, schema: seq<FieldTag>, payload: seq<FieldTag>, i: nat, k: nat)
    requires Ascending(schema) && i < |payload| && Left(loop, schema, payload, k, i)
    requires forall j :: k <= j < |schema| ==> schema[j].id >= payload[i].id
    requires k < |schema| && schema[k].id == payload[i].id ==> InTurn(loop, payload, i)
    ensures FieldEvent(loop, schema, payload, i)
         == if k < |schema| && schema[k].id == payload[i].id && Accepts(loop, schema[k].t, payload[i].t)
            then Known(k, i) else Unknown(i)
  {
    hide Accepts, Seen, Ascending;
    var found := Find(schema, payload[i].id, 0);
    if found.Some? && found.value != k {
      if found.value > k {
        Order(schema, k, found.value);
      }
      assert !InTurn(loop, payload, i);
    } else if found == None && k < |schema| {
      assert schema[k].id != payload[i].id;
    }
  }

  lemma Order(schema: seq<FieldTag>, j: nat, k: nat)
    requires Ascending(schema) && j < k < |schema|
    ensures schema[j].id < schema[k].id
  {
  }

  /** C++, schema known at run time. */
  method ReadFieldsRuntime(schema: seq<FieldTag>, payload: seq<FieldTag>) returns (events: seq<Event>)
    requires Ascending(schema)
    ensures events == Merge(Runtime, schema, payload, 0)
  {
    hide Merge, OnTrack, FieldEvent, Rest;
    events := [];
    var it, i := 0, 0;
    Begin(Runtime, schema, payload);
    while true
      invariant 0 <= i <= |payload| && Done(schema, payload, it, i) && Ahead(schema, payload, it, i)
      invariant OnTrack(Runtime, schema, payload, i, it, events)
      decreases |payload| - i
    {
      while it < |schema| && (i == |payload| || schema[it].id < payload[i].id)
        invariant Left(Runtime, schema, payload, it, i) && Ahead(schema, payload, it, i)
        invariant OnTrack(Runtime, schema, payload, i, it, events)
        decreases |schema| - it
      {
        PassStep(Runtime, schema, payload, i, it);
        Track(Runtime, schema, payload, i, it, i, it + 1, events, [Omitted(it)]);
        events := events + [Omitted(it)];
        it := it + 1;
      }
      if i == |payload| {
        AtEnd(Runtime, schema, payload, events);
        return;
      }
      ghost var k := it;
      var event := Unknown(i);
      if it < |schema| && schema[it].id == payload[i].id {
        if Basic(payload[i].t) || schema[it].t == payload[i].t {
          event := Known(it, i);
        }
        it := it + 1;
      }
      EventAt(Runtime, schema, payload, i, k);
      ReportStep(Runtime, schema, payload, i, k, it);
      Track(Runtime, schema, payload, i, k, i + 1, it, events, [event]);
      events := events + [event];
      i := i + 1;
    }
  }

  /** All schema fields have been left: what remains of the level is unknown. */
  method ReadUnknownFields(ghost loop: Loop, ghost schema: seq<FieldTag>, payload: seq<FieldTag>, start: nat,
                           before: seq<Event>)
    returns (events: seq<Event>)
    requires start <= |payload| && Ascending(schema) && Left(loop, schema, payload, |schema|, start)
    requires OnTrack(loop, schema, payload, start, |schema|, before)
    ensures events == Merge(loop, schema, payload, 0)
  {
    hide Merge, OnTrack, FieldEvent, Rest;
    events := before;
    for i := start to |payload|
      invariant Left(loop, schema, payload, |schema|, i)
      invariant OnTrack(loop, schema, payload, i, |schema|, events)
    {
      EventAt(loop, schema, payload, i, |schema|);
      ReportStep(loop, schema, payload, i, |schema|, |schema|);
      Track(loop, schema, payload, i, |schema|, i + 1, |schema|, events, [Unknown(i)]);
      events := events + [Unknown(i)];
    }
    AtEnd(loop, schema, payload, events);
  }

  lemma {:induction false} SeenFrom(payload: seq<FieldTag>, i: nat, id: int)
    requires i <= |payload|
    ensures Seen(payload, i) < id <==> -1 < id && forall j :: 0 <= j < i ==> payload[j].id < id
  {
    if i > 0 {
      SeenFrom(payload, i - 1, id);
    }
  }

  /** Where nothing before `i` is `id` or more but `i` is, or the payload ends, `id` is reached. */
  lemma ReachIs(payload: seq<FieldTag>, i: nat, id: nat)
    requires i <= |payload| && Seen(payload, i) < id && (i == |payload| || payload[i].id >= id)
    ensures Reach(payload, 0, id) == i
  {
    SeenFrom(payload, i, id);
  }

  /** The compile-time loop with schema field `head` at its head, at position `i`. */
  ghost predicate Heads(schema: seq<FieldTag>, payload: seq<FieldTag>, head: nat, i: nat) {
    && Ascending(schema) && i <= |payload| && Left(Static, schema, payload, head, i)
    && (head < |schema| ==> Seen(payload, i) <= schema[head].id)
  }

  lemma HeadPassed(schema: seq<FieldTag>, payload: seq<FieldTag>, head: nat, i: nat)
    requires Heads(schema, payload, head, i) && head < |schema|
    requires i == |payload| || payload[i].id > schema[head].id
    ensures Heads(schema, payload, head + 1, i)
    ensures head + 1 < |schema| ==>
              i == Arrival(Static, schema, payload, head + 1) && Seen(payload, i) < schema[head + 1].id
  {
    hide Reach;
    ReachIs(payload, i, schema[head].id + 1);
  }

  /** It is reported if the loop has only just come to it. */
  lemma HeadReported(schema: seq<FieldTag>, payload: seq<FieldTag>, head: nat, i: nat, events: seq<Event>)
    requires Heads(schema, payload, head, i) && head < |schema|
    requires i == |payload| || payload[i].id > schema[head].id
    requires i == Arrival(Static, schema, payload, head) ==> Seen(payload, i) < schema[head].id
    requires OnTrack(Static, schema, payload, i, head, events)
    ensures OnTrack(Static, schema, payload, i, head + 1,
                    if i == Arrival(Static, schema, payload, head) then events + [Omitted(head)] else events)
  {
    hide Arrival, OnTrack, Left, Ascending, Rest;
    PassStep(Static, schema, payload, i, head);
    var more := if i == Arrival(Static, schema, payload, head) then [Omitted(head)] else [];
    Track(Static, schema, payload, i, head, i, head + 1, events, more);
  }

  lemma HeadStays(schema: seq<FieldTag>, payload: seq<FieldTag>, head: nat, i: nat, events: seq<Event>)
    requires Heads(schema, payload, head, i) && head < |schema| && i < |payload| && payload[i].id <= schema[head].id
    requires OnTrack(Static, schema, payload, i, head, events)
    ensures Heads(schema, payload, head, i + 1)
    ensures OnTrack(Static, schema, payload, i + 1, head,
                    events + [if schema[head].id == payload[i].id && Accepts(Static, schema[head].t, payload[i].t)
                              then Known(head, i) else Unknown(i)])
  {
    hide FieldEvent, Accepts, OnTrack, Rest;
    EventAt(Static, schema, payload, i, head);
    ReportStep(Static, schema, payload, i, head, head);
    Track(Static, schema, payload, i, head, i + 1, head, events, [FieldEvent(Static, schema, payload, i)]);
  }

  lemma HeadsLeft(schema: seq<FieldTag>, payload: seq<FieldTag>, head: nat, i: nat)
    requires Heads(schema, payload, head, i)
    ensures i <= |payload| && Left(Static, schema, payload, head, i)
  {
  }

  /** The loop with one field of the schema at its head. */
  method ReadHead(schema: seq<FieldTag>, payload: seq<FieldTag>, head: nat, start: nat, before: seq<Event>)
    returns (i: nat, events: seq<Event>)
    requires head < |schema| && start <= |payload| && Heads(schema, payload, head, start)
    requires start == Arrival(Static, schema, payload, head) && Seen(payload, start) < schema[head].id
    requires OnTrack(Static, schema, payload, start, head, before)
    ensures i <= |payload| && Heads(schema, payload, head, i)
    ensures i == |payload| || payload[i].id > schema[head].id
    ensures OnTrack(Static, schema, payload, i, head + 1, events)
  {
    hide Merge, OnTrack, Arrival, Heads, Seen, Ascending, Accepts;
    i, events := start, before;
    var id, t := schema[head].id, schema[head].t;
    while true
      invariant start <= i <= |payload| && Heads(schema, payload, head, i)
      invariant i > start ==> i < |payload| && payload[i].id <= id
      invariant OnTrack(Static, schema, payload, i, head, events)
      decreases |payload| - i
    {
      var event := Unknown(i);
      if i < |payload| && id == payload[i].id && t == payload[i].t {
        event := Known(head, i);
      } else if i < |payload| && id >= payload[i].id {
        if Basic(t) && id == payload[i].id && Basic(payload[i].t) {
          event := Known(head, i);
        }
      } else {
        HeadReported(schema, payload, head, i, events);
        events := events + [Omitted(head)];
        return;
      }
      assert event == if id == payload[i].id && Accepts(Static, t, payload[i].t) then Known(head, i)
                      else Unknown(i) by {
        StaticAccepts(t, payload[i].t);
      }
      HeadStays(schema, payload, head, i, events);
      events := events + [event];
      i := i + 1;
      if i == |payload| || id < payload[i].id {
        HeadReported(schema, payload, head, i, events);
        return;
      }
    }
  }

  lemma StaticAccepts(declared: byte, actual: byte)
    ensures Accepts(Static, declared, actual) <==> declared == actual || (Basic(declared) && Basic(actual))
  {
  }

  /** C++, schema known at compile time: each field of the schema is the head of the loop in turn. */
  method ReadFieldsStatic(schema: seq<FieldTag>, payload: seq<FieldTag>) returns (events: seq<Event>)
    requires Ascending(schema)
    ensures events == Merge(Static, schema, payload, 0)
  {
    assert Heads(schema, payload, 0, 0) && (schema != [] ==> Seen(payload, 0) < schema[0].id);
    Begin(Static, schema, payload);
    events := [];
    var i: nat := 0;
    for head := 0 to |schema|
      invariant i <= |payload| && Heads(schema, payload, head, i)
      invariant head < |schema| ==> i == Arrival(Static, schema, payload, head) && Seen(payload, i) < schema[head].id
      invariant OnTrack(Static, schema, payload, i, head, events)
    {
      hide Merge, OnTrack, Arrival, Heads, Seen, Ascending;
      i, events := ReadHead(schema, payload, head, i, events);
      HeadPassed(schema, payload, head, i);
    }
    HeadsLeft(schema, payload, |schema|, i);
    events := ReadUnknownFields(Static, schema, payload, i, events);
  }

  /** The C# loop at schema field `f` and position `i`: which fields are behind, and which ahead. */
  ghost predicate Stands(loop: Loop, schema: seq<FieldTag>, payload: seq<FieldTag>, f: nat, i: nat) {
    && loop.Tagged? && Ascending(schema) && i <= |payload|
    && Left(loop, schema, payload, f, i) && Ahead(schema, payload, f, i)
  }

  lemma AtPassed(loop: Loop, schema: seq<FieldTag>, payload: seq<FieldTag>, f: nat, i: nat)
    requires Stands(loop, schema, payload, f, i) && f < |schema| && (i == |payload| || payload[i].id > schema[f].id)
    ensures Stands(loop, schema, payload, f + 1, i)
    ensures f + 1 < |schema| ==> i == Arrival(loop, schema, payload, f + 1)
    ensures Rest(loop, schema, payload, i, f)
         == (if Reports(loop, schema, payload, f, i) then [Omitted(f)] else [])
            + Rest(loop, schema, payload, i, f + 1)
  {
    hide Reach, Rest, Reports;
    ReachIs(payload, i, schema[f].id);
    PassStep(loop, schema, payload, i, f);
  }

  lemma AtKnown(loop: Loop, schema: seq<FieldTag>, payload: seq<FieldTag>, f: nat, i: nat)
    requires Stands(loop, schema, payload, f, i) && f < |schema| && i < |payload| && payload[i].id == schema[f].id
    ensures Stands(loop, schema, payload, f + 1, i + 1)
    ensures f + 1 < |schema| ==> i + 1 == Arrival(loop, schema, payload, f + 1)
    ensures Rest(loop, schema, payload, i, f) == [Known(f, i)] + Rest(loop, schema, payload, i + 1, f + 1)
  {
    hide Reach, FieldEvent, Rest;
    ReachIs(payload, i, schema[f].id);
    EventAt(loop, schema, payload, i, f);
    ReportStep(loop, schema, payload, i, f, f + 1);
  }

  lemma AtUnknown(loop: Loop, schema: seq<FieldTag>, payload: seq<FieldTag>, f: nat, i: nat)
    requires Stands(loop, schema, payload, f, i) && i < |payload| && (f < |schema| ==> payload[i].id < schema[f].id)
    ensures Stands(loop, schema, payload, f, i + 1)
    ensures Rest(loop, schema, payload, i, f) == [Unknown(i)] + Rest(loop, schema, payload, i + 1, f)
  {
    hide FieldEvent, Rest;
    EventAt(loop, schema, payload, i, f);
    ReportStep(loop, schema, payload, i, f, f);
  }

  lemma AtLeft(loop: Loop, schema: seq<FieldTag>, payload: seq<FieldTag>, f: nat, i: nat)
    requires Stands(loop, schema, payload, f, i)
    ensures i <= |payload| && Left(loop, schema, payload, f, i)
  {
  }

  /** The loop generated for one field of the schema. */
  method ReadField(loop: Loop, schema: seq<FieldTag>, payload: seq<FieldTag>, f: nat, start: nat, before: seq<Event>)
    returns (i: nat, events: seq<Event>)
    requires loop.Tagged? && f < |schema| && start <= |payload| && Stands(loop, schema, payload, f, start)
    requires start == Arrival(loop, schema, payload, f) && OnTrack(loop, schema, payload, start, f, before)
    ensures i <= |payload| && Stands(loop, schema, payload, f + 1, i)
    ensures f + 1 < |schema| ==> i == Arrival(loop, schema, payload, f + 1)
    ensures OnTrack(loop, schema, payload, i, f + 1, events)
  {
    hide Merge, OnTrack, Arrival, Stands, Ascending, Rest;
    i, events := start, before;
    var id := schema[f].id;
    while true
      invariant start <= i <= |payload| && Stands(loop, schema, payload, f, i)
      invariant i > start ==> (if i < |payload| then payload[i].id else loop.stop) <= id
      invariant OnTrack(loop, schema, payload, i, f, events)
      decreases |payload| - i
    {
      if i == |payload| || payload[i].id > id {
        AtPassed(loop, schema, payload, f, i);
        Track(loop, schema, payload, i, f, i, f + 1, events, [Omitted(f)]);
        events := events + [Omitted(f)];
        return;
      }
      if payload[i].id == id {
        AtKnown(loop, schema, payload, f, i);
        Track(loop, schema, payload, i, f, i + 1, f + 1, events, [Known(f, i)]);
        events := events + [Known(f, i)];
        i := i + 1;
        return;
      }
      AtUnknown(loop, schema, payload, f, i);
      Track(loop, schema, payload, i, f, i + 1, f, events, [Unknown(i)]);
      events := events + [Unknown(i)];
      i := i + 1;
      var header := if i < |payload| then payload[i].id else loop.stop;
      if header > id {
        AtPassed(loop, schema, payload, f, i);
        Track(loop, schema, payload, i, f, i, f + 1, events, []);
        return;
      }
    }
  }

  /** The loops the C# parser generates; `stop` is the identifier in the marker at the end. */
  method ReadFieldsTagged(schema: seq<FieldTag>, payload: seq<FieldTag>, stop: nat) returns (events: seq<Event>)
    requires Ascending(schema)
    ensures events == Merge(Tagged(stop), schema, payload, 0)
  {
    var loop := Tagged(stop);
    assert Stands(loop, schema, payload, 0, 0);
    Begin(loop, schema, payload);
    events := [];
    var i: nat := 0;
    for f := 0 to |schema|
      invariant i <= |payload| && Stands(loop, schema, payload, f, i)
      invariant f < |schema| ==> i == Arrival(loop, schema, payload, f)
      invariant OnTrack(loop, schema, payload, i, f, events)
    {
      hide Merge, OnTrack, Arrival, Stands, Ascending;
      i, events := ReadField(loop, schema, payload, f, i, events);
    }
    AtLeft(loop, schema, payload, |schema|, i);
    events := ReadUnknownFields(loop, schema, payload, i, events);
  }
}
