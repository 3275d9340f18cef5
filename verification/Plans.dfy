/** Which calls the generated code has, told from the two schemas: the walk over them that generating makes,
    without the code. */
module Plans {
  import opened Bytes
  import opened Counting
  import opened Deserialization
  import opened Slicing
  import opened Pairs

  /** The slots after a step of the walk, and whether each call in the step is of a slot that was taken for
      the payload's struct. */
  datatype Plan = Plan(slots: seq<Pair>, own: bool)

  function Targets(slots: seq<Pair>): set<nat> {
    set i | 0 <= i < |slots| :: slots[i].1
  }

  function Elements(stack: seq<nat>): set<nat> {
    set s | s in stack
  }

  /** The slot of a target struct. */
  function SlotOf(slots: seq<Pair>, s: nat): (r: Option<nat>)
    ensures r.Some? ==> r.value < |slots| && slots[r.value].1 == s
    ensures r == None ==> s !in Targets(slots)
  {
    if slots == [] then None
    else if slots[|slots| - 1].1 == s then Some(|slots| - 1)
    else SlotOf(slots[..|slots| - 1], s)
  }

  predicate Ready(ps: Schema, ts: Schema) {
    WellFormed(ps) && WellFormed(ts)
  }

  /** A nested struct: inlined unless it is in progress, or a call. */
  function PlanNested(ps: Schema, ts: Schema, inline: bool, stack: seq<nat>, slots: seq<Pair>, p: nat,
                      s: nat): (r: Plan)
    requires Ready(ps, ts) && p < |ps| && s < |ts|
    ensures slots <= r.slots
    decreases Left(|ts|, Targets(slots)), Left(|ts|, Elements(stack)), 1, 0
  {
    LessLeft(ts, stack, slots, p, s);
    if inline && stack != [] && s !in stack then PlanStruct(ps, ts, inline, stack + [s], slots, p, s)
    else PlanDeferred(ps, ts, inline, stack + [s], slots, p, s)
  }

  /** A call of the slot of the target's struct, which is taken if it is not there. */
  function PlanDeferred(ps: Schema, ts: Schema, inline: bool, stack: seq<nat>, slots: seq<Pair>, p: nat, s: nat)
    : (r: Plan)
    requires Ready(ps, ts) && p < |ps| && s < |ts|
    ensures slots <= r.slots
    decreases Left(|ts|, Targets(slots)), Left(|ts|, Elements(stack)), 0, 1
  {
    LessLeft(ts, stack, slots, p, s);
    match SlotOf(slots, s)
    case Some(i) => Plan(slots, slots[i].0 == p)
    case None => PlanStruct(ps, ts, inline, stack, slots + [(p, s)], p, s)
  }

  lemma LessLeft(ts: Schema, stack: seq<nat>, slots: seq<Pair>, p: nat, s: nat)
    requires s < |ts|
    ensures Left(|ts|, Elements(stack + [s])) <= Left(|ts|, Elements(stack))
    ensures s !in stack ==> Left(|ts|, Elements(stack + [s])) < Left(|ts|, Elements(stack))
    ensures s !in Targets(slots) ==> Left(|ts|, Targets(slots + [(p, s)])) < Left(|ts|, Targets(slots))
  {
    hide Left;
    assert Elements(stack) <= Elements(stack + [s]) && s in Elements(stack + [s]);
    LeftShrinks(|ts|, Elements(stack), Elements(stack + [s]));
    MoreTargets(ts, slots, slots + [(p, s)]);
    var more := slots + [(p, s)];
    assert more[|slots|].1 == s;
    assert s in Targets(more);
    LeftShrinks(|ts|, Targets(slots), Targets(more));
  }

  lemma MoreTargets(ts: Schema, slots: seq<Pair>, more: seq<Pair>)
    requires slots <= more
    ensures Targets(slots) <= Targets(more) && Left(|ts|, Targets(more)) <= Left(|ts|, Targets(slots))
  {
    hide Left;
    forall t | t in Targets(slots) ensures t in Targets(more) {
      var i :| 0 <= i < |slots| && slots[i].1 == t;
      assert more[i].1 == t;
    }
    assert Targets(slots) <= Targets(more);
    LeftShrinks(|ts|, Targets(slots), Targets(more));
  }

  function PlanStruct(ps: Schema, ts: Schema, inline: bool, stack: seq<nat>, slots: seq<Pair>, p: nat,
                      s: nat): (r: Plan)
    requires Ready(ps, ts) && p < |ps| && s < |ts|
    ensures slots <= r.slots
    decreases Left(|ts|, Targets(slots)), Left(|ts|, Elements(stack)), 4, p
  {
    if Depth(ps, p) > Depth(ts, s) then PlanStruct(ps, ts, inline, stack, slots, Base(ps, p).value, s)
    else
      var base := if Base(ps, p).Some? && Base(ts, s).Some?
                  then PlanStruct(ps, ts, inline, stack, slots, Base(ps, p).value, Base(ts, s).value)
                  else Plan(slots, true);
      MoreTargets(ts, slots, base.slots);
      var fields := PlanFields(ps, ts, inline, stack, base.slots, ps[p].fields, ts[s].fields);
      Plan(fields.slots, base.own && fields.own)
  }

  function PlanFields(ps: Schema, ts: Schema, inline: bool, stack: seq<nat>, slots: seq<Pair>, fields: Fields,
                      targets: Fields): (r: Plan)
    requires Ready(ps, ts) && AllRefer(ps, fields) && AllRefer(ts, targets)
    ensures slots <= r.slots
    decreases Left(|ts|, Targets(slots)), Left(|ts|, Elements(stack)), 3, fields
  {
    match fields
    case NoFields => Plan(slots, true)
    case FieldDef(id, _, pt, rest) =>
      match Lookup(targets, id)
      case None => PlanFields(ps, ts, inline, stack, slots, rest, targets)
      case Some(ft) =>
        LookupRefers(ts, targets, id);
        var value := PlanValue(ps, ts, inline, stack, slots, pt, ft);
        MoreTargets(ts, slots, value.slots);
        var more := PlanFields(ps, ts, inline, stack, value.slots, rest, targets);
        Plan(more.slots, value.own && more.own)
  }

  function PlanValue(ps: Schema, ts: Schema, inline: bool, stack: seq<nat>, slots: seq<Pair>, pt: FieldType,
                     ft: FieldType): (r: Plan)
    requires Ready(ps, ts) && Refers(ps, pt) && Refers(ts, ft)
    ensures slots <= r.slots
    decreases Left(|ts|, Targets(slots)), Left(|ts|, Elements(stack)), 2, pt
  {
    match (pt, ft)
    case (StructOf(p), StructOf(s)) => PlanNested(ps, ts, inline, stack, slots, p, s)
    case (ContainerOf(_, pe), ContainerOf(_, te)) => PlanValue(ps, ts, inline, stack, slots, pe, te)
    case (MapOf(pk, pe), MapOf(tk, te)) =>
      var key := PlanValue(ps, ts, inline, stack, slots, pk, tk);
      MoreTargets(ts, slots, key.slots);
      var elem := PlanValue(ps, ts, inline, stack, key.slots, pe, te);
      Plan(elem.slots, key.own && elem.own)
    case _ => Plan(slots, true)
  }

  /** Reading `p` into `s`, every call in the functions is of a slot taken for the payload's struct. */
  predicate PlannedOwn(ps: Schema, ts: Schema, inline: bool, p: nat, s: nat)
    requires Ready(ps, ts) && p < |ps| && s < |ts|
  {
    PlanNested(ps, ts, inline, [], [], p, s).own
  }
}
