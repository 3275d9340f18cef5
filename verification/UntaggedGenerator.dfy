/** The deserializer generator over the untagged parser: the code for a struct depends on the struct in
    the payload, but a function is looked up by the struct that is read into. */
module UntaggedGenerator {
  import opened Bytes
  import opened Counting
  import opened Deserialization
  import opened Slicing
  import opened Pairs
  import opened UntaggedCode
  import opened Plans

  lemma LevelIn(pairs: set<Pair>, ps: Schema, ts: Schema, p: nat, s: nat)
    requires Ready(ps, ts) && p < |ps| && s < |ts| && StructIn(pairs, ps, ts, p, s) && Depth(ps, p) <= Depth(ts, s)
    ensures FieldsIn(pairs, ps[p].fields, ts[s].fields) && AllRefer(ps, ps[p].fields) && AllRefer(ts, ts[s].fields)
    ensures Base(ps, p).Some? && Base(ts, s).Some? ==>
              StructIn(pairs, ps, ts, Base(ps, p).value, Base(ts, s).value)
  {
  }

  lemma LevelPlan(ps: Schema, ts: Schema, inline: bool, stack: seq<nat>, slots: seq<Pair>, p: nat, s: nat)
    requires Ready(ps, ts) && p < |ps| && s < |ts| && Depth(ps, p) <= Depth(ts, s)
    ensures var base := if Base(ps, p).Some? && Base(ts, s).Some?
                        then PlanStruct(ps, ts, inline, stack, slots, Base(ps, p).value, Base(ts, s).value)
                        else Plan(slots, true);
            var fields := PlanFields(ps, ts, inline, stack, base.slots, ps[p].fields, ts[s].fields);
            PlanStruct(ps, ts, inline, stack, slots, p, s) == Plan(fields.slots, base.own && fields.own)
  {
    hide PlanFields;
  }

  lemma LevelFor(own: bool, kept: set<nat>, forms: seq<Pair>, ps: Schema, ts: Schema, base: Option<StructCode>,
                 fields: FieldCodes, p: nat, s: nat)
    requires p < |ps| && s < |ts| && Depth(ps, p) <= Depth(ts, s)
    requires base.Some? == (Base(ps, p).Some? && Base(ts, s).Some?)
    ensures StructCodeFor(own, kept, forms, ps, ts, LevelCode(s, base, fields), p, s)
       <==> (base.Some? ==>
               StructCodeFor(own, kept, forms, ps, ts, base.value, Base(ps, p).value, Base(ts, s).value))
            && FieldCodesFor(own, kept, forms, ps, ts, fields, ps[p].fields, ts[s].fields)
  {
    hide FieldCodesFor;
  }

  lemma KnownFor(own: bool, kept: set<nat>, forms: seq<Pair>, ps: Schema, ts: Schema, code: Code, more: FieldCodes,
                 fields: Fields, targets: Fields)
    requires fields.FieldDef? && Lookup(targets, fields.id).Some?
    ensures var pt, ft := fields.ft, Lookup(targets, fields.id).value;
            FieldCodesFor(own, kept, forms, ps, ts,
                          FieldCode(fields.id, if Fits(pt, ft) then code else Pruned(code), more), fields, targets)
            <==> CodeFor(own, kept, forms, ps, ts, code, pt, ft)
                 && FieldCodesFor(own, kept, forms, ps, ts, more, fields.rest, targets)
  {
    hide CodeFor;
  }

  lemma MapIn(pairs: set<Pair>, ps: Schema, ts: Schema, pt: FieldType, ft: FieldType)
    requires AllIn(pairs, pt, ft) && Refers(ps, pt) && Refers(ts, ft) && pt.MapOf? && ft.MapOf?
    ensures AllIn(pairs, pt.key, ft.key) && AllIn(pairs, pt.elem, ft.elem)
    ensures Refers(ps, pt.key) && Refers(ts, ft.key) && Refers(ps, pt.elem) && Refers(ts, ft.elem)
  {
  }

  lemma MapPlan(ps: Schema, ts: Schema, inline: bool, stack: seq<nat>, slots: seq<Pair>, pt: FieldType, ft: FieldType)
    requires Ready(ps, ts) && Refers(ps, pt) && Refers(ts, ft) && pt.MapOf? && ft.MapOf?
    ensures var key := PlanValue(ps, ts, inline, stack, slots, pt.key, ft.key);
            var elem := PlanValue(ps, ts, inline, stack, key.slots, pt.elem, ft.elem);
            PlanValue(ps, ts, inline, stack, slots, pt, ft) == Plan(elem.slots, key.own && elem.own)
  {
    hide PlanNested;
  }

  lemma MapFor(own: bool, kept: set<nat>, forms: seq<Pair>, ps: Schema, ts: Schema, key: Code, elem: Code,
               pt: FieldType, ft: FieldType)
    requires pt.MapOf? && ft.MapOf?
    ensures CodeFor(own, kept, forms, ps, ts, LoopMap(key, elem), pt, ft)
       <==> CodeFor(own, kept, forms, ps, ts, key, pt.key, ft.key)
            && CodeFor(own, kept, forms, ps, ts, elem, pt.elem, ft.elem)
  {
  }

  lemma InlineOwn(forms: seq<Pair>, ps: Schema, ts: Schema, body: StructCode, p: nat, s: nat)
    ensures CodeFor(true, {}, forms, ps, ts, Inline(body), StructOf(p), StructOf(s))
       <==> StructCodeFor(true, {}, forms, ps, ts, body, p, s)
  {
  }

  lemma CallOwn(forms: seq<Pair>, ps: Schema, ts: Schema, index: nat, p: nat, s: nat)
    requires p < |ps| && s < |ts| && index < |forms| && forms[index].1 == s
    ensures CodeFor(true, {}, forms, ps, ts, Call(index), StructOf(p), StructOf(s)) <==> forms[index].0 == p
  {
  }

  /** Where no target struct meets two payload structs, the function of a target is the right one. */
  lemma CallFor(pairs: set<Pair>, kept: set<nat>, forms: seq<Pair>, ps: Schema, ts: Schema, index: nat, p: nat, s: nat)
    requires p < |ps| && s < |ts| && (p, s) in pairs
    requires index < |forms| && forms[index] in pairs && forms[index].1 == s
    ensures CodeFor(Single(pairs), kept, forms, ps, ts, Call(index), StructOf(p), StructOf(s))
  {
    assert Single(pairs) ==> forms[index] == (p, s);
  }

  // ------------------------------------------------------------- functions with calls of their own

  /** The functions from the `n`th on that are there call only functions for the struct in the payload. */
  ghost predicate OwnFrom(forms: seq<Pair>, ps: Schema, ts: Schema, funcs: seq<Option<StructCode>>, n: nat)
    requires |forms| == |funcs|
  {
    forall i :: n <= i < |funcs| && funcs[i].Some? ==>
      StructCodeFor(true, {}, forms, ps, ts, funcs[i].value, forms[i].0, forms[i].1)
  }

  /** Every function that is there is code for what its slot was made for. */
  ghost predicate AllCoded(own: bool, kept: set<nat>, forms: seq<Pair>, ps: Schema, ts: Schema,
                           funcs: seq<Option<StructCode>>)
    requires |forms| == |funcs|
  {
    forall i :: 0 <= i < |forms| && funcs[i].Some? ==>
      StructCodeFor(own, kept, forms, ps, ts, funcs[i].value, forms[i].0, forms[i].1)
  }

  /** Adding functions does not change which of the earlier ones have calls of their own. */
  lemma OwnGrows(own: bool, kept: set<nat>, forms: seq<Pair>, funcs: seq<Option<StructCode>>, forms': seq<Pair>,
                 funcs': seq<Option<StructCode>>, ps: Schema, ts: Schema, n: nat)
    requires |forms| == |funcs| && |forms'| == |funcs'| && forms <= forms' && funcs <= funcs' && n <= |funcs|
    requires AllCoded(own, kept, forms, ps, ts, funcs)
    ensures OwnFrom(forms', ps, ts, funcs', n)
       <==> OwnFrom(forms, ps, ts, funcs, n) && OwnFrom(forms', ps, ts, funcs', |funcs|)
  {
    forall i | 0 <= i < |funcs| && funcs[i].Some?
      ensures StructCodeFor(true, {}, forms, ps, ts, funcs[i].value, forms[i].0, forms[i].1)
         <==> StructCodeFor(true, {}, forms', ps, ts, funcs[i].value, forms[i].0, forms[i].1)
    {
      StructCodeSame(own, kept, forms, forms', ps, ts, funcs[i].value, forms[i].0, forms[i].1);
    }
    hide StructCodeFor;
    assert forall i :: 0 <= i < |funcs| ==> funcs'[i] == funcs[i] && forms'[i] == forms[i];
  }

  lemma OwnFilled(forms: seq<Pair>, ps: Schema, ts: Schema, funcs: seq<Option<StructCode>>, n: nat, code: StructCode)
    requires |forms| == |funcs| && n < |funcs|
    ensures OwnFrom(forms, ps, ts, funcs[n := Some(code)], n)
       <==> StructCodeFor(true, {}, forms, ps, ts, code, forms[n].0, forms[n].1) && OwnFrom(forms, ps, ts, funcs, n + 1)
  {
    hide StructCodeFor;
    var filled := funcs[n := Some(code)];
    assert forall i :: n < i < |funcs| ==> filled[i] == funcs[i];
    assert filled[n] == Some(code);
  }

  /** The slot in the plan is the one in the index. */
  lemma {:induction false} SlotIs(forms: seq<Pair>, i: nat)
    requires i < |forms|
    requires forall j, k :: 0 <= j < |forms| && 0 <= k < |forms| && forms[j].1 == forms[k].1 ==> j == k
    ensures SlotOf(forms, forms[i].1) == Some(i)
  {
    assert forms[i].1 in Targets(forms);
  }

  // -------------------------------------------------------------- the generator

  class UntaggedTransform {
    const ps: Schema
    const ts: Schema
    const inlineNested: bool
    var deserializeFuncs: seq<Option<StructCode>>
    var deserializeIndex: map<nat, nat>
    var inProgress: seq<nat>
    ghost var forms: seq<Pair>
    ghost const pairs: set<Pair>
    ghost const kept: set<nat>

    ghost function Unindexed(): nat
      reads this
    {
      Left(|ts|, deserializeIndex.Keys)
    }

    ghost function NotInProgress(): nat
      reads this
    {
      Left(|ts|, set s | s in inProgress)
    }

    /** The index and the table are inverse to each other, by the target's struct; every function that is
        there is code for the payload's struct its slot was made for. Structs that are kept are in
        progress all the time. */
    ghost predicate Valid()
      reads this
    {
      && Ready(ps, ts) && Closed(pairs, ps, ts) && |forms| == |deserializeFuncs|
      && (inlineNested && inProgress != [] ==> kept <= set s | s in inProgress)
      && (forall i :: 0 <= i < |forms| ==>
            forms[i] in pairs && forms[i].1 in deserializeIndex && deserializeIndex[forms[i].1] == i)
      && (forall s :: s in deserializeIndex ==>
            s < |ts| && deserializeIndex[s] < |forms| && forms[deserializeIndex[s]].1 == s)
      && AllCoded(Single(pairs), kept, forms, ps, ts, deserializeFuncs)
    }

    /** The slots are those of `plan`, and it says whether code that is `own`, or not, and the functions from
        the `n`th on have only calls of their own. */
    ghost predicate Planned(plan: Plan, n: nat, own: bool)
      requires |forms| == |deserializeFuncs|
      reads this
    {
      forms == plan.slots && (plan.own <==> own && OwnFrom(forms, ps, ts, deserializeFuncs, n))
    }

    /** What generating a part may have done: added functions, all of them complete. */
    twostate predicate Extended()
      reads this
    {
      && Valid() && inProgress == old(inProgress) && old(forms) <= forms
      && old(deserializeFuncs) <= deserializeFuncs
      && (forall i :: |old(deserializeFuncs)| <= i < |deserializeFuncs| ==> deserializeFuncs[i].Some?)
      && old(deserializeIndex).Keys <= deserializeIndex.Keys
    }

    constructor (payload: Schema, target: Schema, inlining: bool, ghost meeting: set<Pair>, ghost keep: set<nat>)
      requires Ready(payload, target) && Closed(meeting, payload, target)
      ensures Valid() && ps == payload && ts == target && inlineNested == inlining && pairs == meeting && kept == keep
      ensures deserializeFuncs == [] && inProgress == [] && forms == []
    {
      ps, ts, inlineNested, pairs, kept := payload, target, inlining, meeting, keep;
      deserializeFuncs, deserializeIndex, inProgress, forms := [], map[], [], [];
    }

    /** The struct that is read into decides whether the code is inlined or which function is called; the
        struct in the payload is not asked. */
    method Deserialize(p: nat, s: nat) returns (code: Code)
      requires Valid() && (p, s) in pairs && (inlineNested && inProgress == [] ==> kept <= {s})
      modifies this
      ensures Extended() && CodeFor(Single(pairs), kept, forms, ps, ts, code, StructOf(p), StructOf(s))
      ensures old(inProgress) == [] && old(deserializeFuncs) == [] ==>
                forms != [] && forms[0] == (p, s) && code == Call(0)
      ensures code.Inline? <==> inlineNested && old(inProgress) != [] && s !in old(inProgress)
      ensures code.Call? ==> code.index == if s in old(deserializeIndex) then old(deserializeIndex)[s] else |old(forms)|
      ensures Planned(PlanNested(ps, ts, inlineNested, old(inProgress), old(forms), p, s), |old(forms)|,
                      CodeFor(true, {}, forms, ps, ts, code, StructOf(p), StructOf(s)))
      decreases Unindexed(), NotInProgress(), 1, 0
    {
      hide Left, StructCodeFor, Closed, Single, StructIn, CodeFor, OwnFrom, AllCoded, PlanStruct, PlanDeferred;
      PairIn(pairs, ps, ts, p, s);
      var inline := inlineNested && inProgress != [] && s !in inProgress;
      Push(s);
      if inline {
        var body := Struct(p, s);
        code := Inline(body);
        InlineFor(Single(pairs), kept, forms, ps, ts, body, p, s);
        InlineOwn(forms, ps, ts, body, p, s);
      } else {
        code := Deferred(p, s);
      }
      Pop();
    }

    method Deferred(p: nat, s: nat) returns (code: Code)
      requires Valid() && (p, s) in pairs && inProgress != []
      modifies this
      ensures Extended() && CodeFor(Single(pairs), kept, forms, ps, ts, code, StructOf(p), StructOf(s))
      ensures old(deserializeFuncs) == [] ==> forms != [] && forms[0] == (p, s) && code == Call(0)
      ensures code == Call(if s in old(deserializeIndex) then old(deserializeIndex)[s] else |old(forms)|)
      ensures Planned(PlanDeferred(ps, ts, inlineNested, inProgress, old(forms), p, s), |old(forms)|,
                      CodeFor(true, {}, forms, ps, ts, code, StructOf(p), StructOf(s)))
      decreases Unindexed(), NotInProgress(), 0, 1
    {
      hide Left, StructCodeFor, Closed, Single, StructIn, CodeFor, AllCoded, PlanStruct;
      PairIn(pairs, ps, ts, p, s);
      var index;
      if s in deserializeIndex {
        index := deserializeIndex[s];
        SlotIs(forms, index);
      } else {
        NoSlot(s);
        index := NewFunction(p, s);
      }
      CallOwn(forms, ps, ts, index, p, s);
      code := Call(index);
      CallFor(pairs, kept, forms, ps, ts, index, p, s);
    }

    lemma NoSlot(s: nat)
      requires Valid() && s !in deserializeIndex
      ensures SlotOf(forms, s) == None
    {
      hide AllCoded, Closed;
      assert forall i :: 0 <= i < |forms| ==> forms[i].1 in deserializeIndex;
    }

    method Pop()
      requires Valid() && inProgress != []
      requires var outer := inProgress[..|inProgress| - 1];
               inlineNested && outer != [] ==> kept <= set s | s in outer
      modifies this`inProgress
      ensures Valid() && inProgress == old(inProgress[..|inProgress| - 1])
    {
      hide StructCodeFor, Closed, Single;
      inProgress := inProgress[..|inProgress| - 1];
    }

    method Push(s: nat)
      requires Valid() && s < |ts| && (inlineNested && inProgress == [] ==> kept <= {s})
      modifies this`inProgress
      ensures Valid() && inProgress == old(inProgress) + [s]
      ensures NotInProgress() <= old(NotInProgress())
      ensures s !in old(inProgress) ==> NotInProgress() < old(NotInProgress())
    {
      hide Left, StructCodeFor;
      ghost var outer := set o | o in inProgress;
      inProgress := inProgress + [s];
      ghost var now := set o | o in inProgress;
      assert outer <= now && s in now;
      LeftShrinks(|ts|, outer, now);
    }

    method NewFunction(p: nat, s: nat) returns (index: nat)
      requires Valid() && (p, s) in pairs && inProgress != [] && s !in deserializeIndex
      modifies this
      ensures Extended() && index == |old(forms)| < |forms| && forms[index] == (p, s)
      ensures Planned(PlanStruct(ps, ts, inlineNested, inProgress, old(forms) + [(p, s)], p, s), index, true)
      decreases Unindexed(), NotInProgress(), 0, 0
    {
      hide Left, StructCodeFor, Closed, Single, StructIn, PlanStruct, OwnFrom, AllCoded;
      PairIn(pairs, ps, ts, p, s);
      index := |deserializeFuncs|;
      Reserve(p, s);
      var body := Struct(p, s);
      OwnFilled(forms, ps, ts, deserializeFuncs, index, body);
      Fill(index, body);
    }

    method Fill(index: nat, body: StructCode)
      requires Valid() && index < |forms|
      requires StructCodeFor(Single(pairs), kept, forms, ps, ts, body, forms[index].0, forms[index].1)
      modifies this`deserializeFuncs
      ensures Valid() && deserializeFuncs == old(deserializeFuncs)[index := Some(body)]
    {
      hide StructCodeFor, Closed, Single;
      deserializeFuncs := deserializeFuncs[index := Some(body)];
    }

    /** Takes the next slot, under the target's struct. */
    method Reserve(p: nat, s: nat)
      requires Valid() && (p, s) in pairs && s !in deserializeIndex
      modifies this`deserializeIndex, this`deserializeFuncs, this`forms
      ensures Valid() && forms == old(forms) + [(p, s)] && deserializeFuncs == old(deserializeFuncs) + [None]
      ensures deserializeIndex == old(deserializeIndex)[s := |old(deserializeFuncs)|]
      ensures Unindexed() < old(Unindexed())
    {
      hide Left, StructCodeFor, Closed, Single, StructIn;
      PairIn(pairs, ps, ts, p, s);
      ghost var before, keys := forms, deserializeIndex.Keys;
      deserializeIndex := deserializeIndex[s := |deserializeFuncs|];
      deserializeFuncs := deserializeFuncs + [None];
      forms := forms + [(p, s)];
      LeftShrinks(|ts|, keys, deserializeIndex.Keys);
      forall i | 0 <= i < |forms| && deserializeFuncs[i].Some?
        ensures StructCodeFor(Single(pairs), kept, forms, ps, ts, deserializeFuncs[i].value, forms[i].0, forms[i].1)
      {
        StructCodeKept(Single(pairs), kept, before, forms, ps, ts, deserializeFuncs[i].value, before[i].0, before[i].1);
      }
    }

    /** While the payload's hierarchy is deeper only its base is read into the target. */
    method Struct(p: nat, s: nat) returns (code: StructCode)
      requires Valid() && p < |ps| && s < |ts| && StructIn(pairs, ps, ts, p, s) && inProgress != []
      modifies this
      ensures Extended() && StructCodeFor(Single(pairs), kept, forms, ps, ts, code, p, s)
      ensures Planned(PlanStruct(ps, ts, inlineNested, inProgress, old(forms), p, s), |old(forms)|,
                      StructCodeFor(true, {}, forms, ps, ts, code, p, s))
      decreases Unindexed(), NotInProgress(), 4, p, 1
    {
      hide Left, FieldCodesFor, Closed, Single, OwnFrom, AllCoded, PlanFields;
      if Depth(ps, p) > Depth(ts, s) {
        var inner := Struct(Base(ps, p).value, s);
        code := DeeperCode(inner, ps[p].fields);
      } else {
        code := Levels(p, s);
      }
    }

    /** The bases, as far as both have some, and the fields of the level. */
    method Levels(p: nat, s: nat) returns (code: StructCode)
      requires Valid() && p < |ps| && s < |ts| && StructIn(pairs, ps, ts, p, s) && inProgress != []
      requires Depth(ps, p) <= Depth(ts, s)
      modifies this
      ensures Extended() && StructCodeFor(Single(pairs), kept, forms, ps, ts, code, p, s)
      ensures Planned(PlanStruct(ps, ts, inlineNested, inProgress, old(forms), p, s), |old(forms)|,
                      StructCodeFor(true, {}, forms, ps, ts, code, p, s))
      decreases Unindexed(), NotInProgress(), 4, p, 0
    {
      hide Left, FieldCodesFor, StructCodeFor, StructIn, Closed, Single, OwnFrom, AllCoded, PlanStruct, PlanFields;
      LevelIn(pairs, ps, ts, p, s);
      LevelPlan(ps, ts, inlineNested, inProgress, forms, p, s);
      var base := None;
      if Base(ps, p).Some? && Base(ts, s).Some? {
        var baseCode := Struct(Base(ps, p).value, Base(ts, s).value);
        base := Some(baseCode);
      }
      ghost var before, made := forms, deserializeFuncs;
      LeftShrinks(|ts|, old(deserializeIndex.Keys), deserializeIndex.Keys);
      var fields := FieldValues(ps[p].fields, ts[s].fields);
      OwnGrows(Single(pairs), kept, before, made, forms, deserializeFuncs, ps, ts, |old(forms)|);
      if base.Some? {
        StructCodeKept(Single(pairs), kept, before, forms, ps, ts, base.value, Base(ps, p).value, Base(ts, s).value);
        StructCodeSame(Single(pairs), kept, before, forms, ps, ts, base.value, Base(ps, p).value, Base(ts, s).value);
      }
      code := LevelCode(s, base, fields);
      LevelFor(Single(pairs), kept, forms, ps, ts, base, fields, p, s);
      LevelFor(true, {}, forms, ps, ts, base, fields, p, s);
    }

    /** The fields of the payload's struct, each joined with that of the target. */
    method FieldValues(fields: Fields, targets: Fields) returns (codes: FieldCodes)
      requires Valid() && FieldsIn(pairs, fields, targets) && inProgress != []
      requires AllRefer(ps, fields) && AllRefer(ts, targets)
      modifies this
      ensures Extended() && FieldCodesFor(Single(pairs), kept, forms, ps, ts, codes, fields, targets)
      ensures Planned(PlanFields(ps, ts, inlineNested, inProgress, old(forms), fields, targets), |old(forms)|,
                      FieldCodesFor(true, {}, forms, ps, ts, codes, fields, targets))
      decreases Unindexed(), NotInProgress(), 3, fields, 1
    {
      hide Left, StructCodeFor, CodeFor, Closed, Single, StructIn, AllCoded, PlanValue;
      if fields == NoFields {
        codes := NoCode;
      } else if Lookup(targets, fields.id) == None {
        var more := FieldValues(fields.rest, targets);
        codes := SkipCode(fields.ft, more);
      } else {
        codes := KnownField(fields, targets);
      }
    }

    /** A field that the target has, and the rest. */
    method KnownField(fields: Fields, targets: Fields) returns (codes: FieldCodes)
      requires Valid() && FieldsIn(pairs, fields, targets) && inProgress != []
      requires AllRefer(ps, fields) && AllRefer(ts, targets)
      requires fields.FieldDef? && Lookup(targets, fields.id).Some?
      modifies this
      ensures Extended() && FieldCodesFor(Single(pairs), kept, forms, ps, ts, codes, fields, targets)
      ensures Planned(PlanFields(ps, ts, inlineNested, inProgress, old(forms), fields, targets), |old(forms)|,
                      FieldCodesFor(true, {}, forms, ps, ts, codes, fields, targets))
      decreases Unindexed(), NotInProgress(), 3, fields, 0
    {
      hide Left, StructCodeFor, CodeFor, FieldCodesFor, Closed, Single, StructIn, OwnFrom, AllCoded, PlanValue;
      var pt, ft := fields.ft, Lookup(targets, fields.id).value;
      LookupRefers(ts, targets, fields.id);
      var code := Value(pt, ft);
      ghost var before, made := forms, deserializeFuncs;
      LeftShrinks(|ts|, old(deserializeIndex.Keys), deserializeIndex.Keys);
      var more := FieldValues(fields.rest, targets);
      CodeKept(Single(pairs), kept, before, forms, ps, ts, code, pt, ft);
      CodeSame(Single(pairs), kept, before, forms, ps, ts, code, pt, ft);
      OwnGrows(Single(pairs), kept, before, made, forms, deserializeFuncs, ps, ts, |old(forms)|);
      codes := FieldCode(fields.id, if Fits(pt, ft) then code else Pruned(code), more);
      KnownFor(Single(pairs), kept, forms, ps, ts, code, more, fields, targets);
      KnownFor(true, {}, forms, ps, ts, code, more, fields, targets);
    }

    method Value(pt: FieldType, ft: FieldType) returns (code: Code)
      requires Valid() && AllIn(pairs, pt, ft) && inProgress != []
      requires Refers(ps, pt) && Refers(ts, ft)
      modifies this
      ensures Extended() && CodeFor(Single(pairs), kept, forms, ps, ts, code, pt, ft)
      ensures Planned(PlanValue(ps, ts, inlineNested, inProgress, old(forms), pt, ft), |old(forms)|,
                      CodeFor(true, {}, forms, ps, ts, code, pt, ft))
      decreases Unindexed(), NotInProgress(), 2, pt, 1
    {
      hide Left, StructCodeFor, Closed, Single, StructIn, AllCoded, PlanNested;
      match (pt, ft)
      case (Scalar(t), Scalar(_)) => code := LoadScalar(t);
      case (StructOf(p), StructOf(s)) => code := Deserialize(p, s);
      case (ContainerOf(_, pe), ContainerOf(_, te)) =>
        var elem := Value(pe, te);
        code := Loop(elem);
      case (MapOf(_, _), MapOf(_, _)) => code := MapValue(pt, ft);
      case _ => code := Throw;
    }

    method MapValue(pt: FieldType, ft: FieldType) returns (code: Code)
      requires Valid() && AllIn(pairs, pt, ft) && inProgress != []
      requires Refers(ps, pt) && Refers(ts, ft) && pt.MapOf? && ft.MapOf?
      modifies this
      ensures Extended() && CodeFor(Single(pairs), kept, forms, ps, ts, code, pt, ft)
      ensures Planned(PlanValue(ps, ts, inlineNested, inProgress, old(forms), pt, ft), |old(forms)|,
                      CodeFor(true, {}, forms, ps, ts, code, pt, ft))
      decreases Unindexed(), NotInProgress(), 2, pt, 0
    {
      hide Left, StructCodeFor, CodeFor, AllIn, Closed, Single, StructIn, OwnFrom, AllCoded, PlanValue;
      MapIn(pairs, ps, ts, pt, ft);
      var key := Value(pt.key, ft.key);
      ghost var before, made := forms, deserializeFuncs;
      LeftShrinks(|ts|, old(deserializeIndex.Keys), deserializeIndex.Keys);
      var elem := Value(pt.elem, ft.elem);
      CodeKept(Single(pairs), kept, before, forms, ps, ts, key, pt.key, ft.key);
      CodeSame(Single(pairs), kept, before, forms, ps, ts, key, pt.key, ft.key);
      OwnGrows(Single(pairs), kept, before, made, forms, deserializeFuncs, ps, ts, |old(forms)|);
      MapPlan(ps, ts, inlineNested, inProgress, old(forms), pt, ft);
      MapFor(Single(pairs), kept, forms, ps, ts, key, elem, pt, ft);
      MapFor(true, {}, forms, ps, ts, key, elem, pt, ft);
      code := LoopMap(key, elem);
    }

    /** The functions for reading payload struct `p` into `s`; every slot is filled, and no target struct
        has two. */
    method Generate(p: nat, s: nat) returns (funcs: seq<StructCode>)
      requires Valid() && (p, s) in pairs && deserializeFuncs == [] && inProgress == []
      requires inlineNested ==> kept <= {s}
      modifies this
      ensures Complete(Single(pairs), kept, forms, ps, ts, funcs) && forms != [] && forms[0] == (p, s)
      ensures Consistent(forms, ps, ts, funcs) <==> PlannedOwn(ps, ts, inlineNested, p, s)
      ensures forall i :: 0 <= i < |forms| ==> forms[i] in pairs
      ensures forall i, j :: 0 <= i < |forms| && 0 <= j < |forms| && forms[i].1 == forms[j].1 ==> i == j
    {
      var code := Deserialize(p, s);
      funcs := seq(|deserializeFuncs|,
                   i requires 0 <= i < |deserializeFuncs| && deserializeFuncs[i].Some? reads this =>
                     deserializeFuncs[i].value);
    }
  }

  // ------------------------------------------------------- when the calls are right

  // Without inlining the slots are exactly the pairs that meet.

  ghost function Slots(forms: seq<Pair>): set<Pair> {
    set i | 0 <= i < |forms| :: forms[i]
  }

  lemma {:induction false} CodeIn(kept: set<nat>, forms: seq<Pair>, ps: Schema, ts: Schema, code: Code, pt: FieldType,
                                  ft: FieldType)
    requires CodeFor(true, kept, forms, ps, ts, code, pt, ft) && forall t: nat :: t < |ts| ==> t in kept
    ensures AllIn(Slots(forms), pt, ft)
    decreases code
  {
    match (code, pt, ft)
    case (Loop(elem), ContainerOf(_, pe), ContainerOf(_, te)) => CodeIn(kept, forms, ps, ts, elem, pe, te);
    case (LoopMap(key, elem), MapOf(pk, pe), MapOf(tk, te)) =>
      CodeIn(kept, forms, ps, ts, key, pk, tk);
      CodeIn(kept, forms, ps, ts, elem, pe, te);
    case (Call(index), StructOf(p), StructOf(s)) => assert forms[index] == (p, s);
    case _ =>
  }

  lemma {:induction false} FieldCodesIn(kept: set<nat>, forms: seq<Pair>, ps: Schema, ts: Schema, codes: FieldCodes,
                                        fields: Fields, targets: Fields)
    requires FieldCodesFor(true, kept, forms, ps, ts, codes, fields, targets)
    requires forall t: nat :: t < |ts| ==> t in kept
    ensures FieldsIn(Slots(forms), fields, targets)
    decreases codes
  {
    match (codes, fields)
    case (SkipCode(_, more), FieldDef(_, _, _, rest)) => FieldCodesIn(kept, forms, ps, ts, more, rest, targets);
    case (FieldCode(id, code, more), FieldDef(_, _, pt, rest)) =>
      var ft := Lookup(targets, id).value;
      CodeIn(kept, forms, ps, ts, if Fits(pt, ft) then code else code.body, pt, ft);
      FieldCodesIn(kept, forms, ps, ts, more, rest, targets);
    case _ =>
  }

  lemma {:induction false} StructCodeIn(kept: set<nat>, forms: seq<Pair>, ps: Schema, ts: Schema, code: StructCode,
                                        p: nat, s: nat)
    requires StructCodeFor(true, kept, forms, ps, ts, code, p, s) && forall t: nat :: t < |ts| ==> t in kept
    ensures StructIn(Slots(forms), ps, ts, p, s)
    decreases code
  {
    match code
    case DeeperCode(inner, _) => StructCodeIn(kept, forms, ps, ts, inner, Base(ps, p).value, s);
    case LevelCode(_, base, fields) =>
      if base.Some? {
        StructCodeIn(kept, forms, ps, ts, base.value, Base(ps, p).value, Base(ts, s).value);
      }
      FieldCodesIn(kept, forms, ps, ts, fields, ps[p].fields, ts[s].fields);
  }

  lemma SlotsUnmixed(kept: set<nat>, forms: seq<Pair>, ps: Schema, ts: Schema, funcs: seq<StructCode>)
    requires Complete(true, kept, forms, ps, ts, funcs) && forms != [] && forall t: nat :: t < |ts| ==> t in kept
    requires forall i, j :: 0 <= i < |forms| && 0 <= j < |forms| && forms[i].1 == forms[j].1 ==> i == j
    ensures Unmixed(ps, ts, forms[0].0, forms[0].1)
  {
    forall i | 0 <= i < |forms| ensures StructIn(Slots(forms), ps, ts, forms[i].0, forms[i].1) {
      StructCodeIn(kept, forms, ps, ts, funcs[i], forms[i].0, forms[i].1);
    }
    assert Closed(Slots(forms), ps, ts) && Single(Slots(forms));
    assert (forms[0].0, forms[0].1) == forms[0] && forms[0] in Slots(forms);
  }

  /** The functions for reading payloads of `p`, in schema `ps`, into `s`, in schema `ts`. Their calls are
      consistent exactly when the walk over the two schemas says so, and then they read each struct by its
      own schema, on any bytes. They are consistent if no target struct meets two payload structs; without
      inlining, only then. */
  method Compile(ps: Schema, ts: Schema, p: nat, s: nat, inlineNested: bool)
    returns (funcs: seq<StructCode>, ghost forms: seq<Pair>)
    requires WellFormed(ps) && WellFormed(ts) && p < |ps| && s < |ts|
    ensures Complete(false, {}, forms, ps, ts, funcs) && forms != [] && forms[0] == (p, s)
    ensures forall i, j :: 0 <= i < |forms| && 0 <= j < |forms| && forms[i].1 == forms[j].1 ==> i == j
    ensures Consistent(forms, ps, ts, funcs) <==> PlannedOwn(ps, ts, inlineNested, p, s)
    ensures Unmixed(ps, ts, p, s) ==> Consistent(forms, ps, ts, funcs)
    ensures !inlineNested ==> (Consistent(forms, ps, ts, funcs) <==> Unmixed(ps, ts, p, s))
    ensures PlannedOwn(ps, ts, inlineNested, p, s) || Unmixed(ps, ts, p, s) ==>
              forall fuel, v2, data, pos ::
                Exec(fuel, v2, ps, funcs, Call(0), data, pos)
                == Read(fuel, v2, ps, StructOf(p), ts, StructOf(s), data, pos)
  {
    hide Closed, Single, Complete;
    ghost var pairs := AllPairs(ps, ts);
    AllClosed(ps, ts);
    if Unmixed(ps, ts, p, s) {
      pairs :| Closed(pairs, ps, ts) && (p, s) in pairs && Single(pairs);
    }
    ghost var kept := if inlineNested then {} else UpTo(|ts|);
    var transform := new UntaggedTransform(ps, ts, inlineNested, pairs, kept);
    funcs := transform.Generate(p, s);
    forms := transform.forms;
    CompleteRelaxed(Single(pairs), kept, false, {}, forms, ps, ts, funcs);
    if Single(pairs) {
      CompleteRelaxed(true, kept, true, {}, forms, ps, ts, funcs);
    }
    if Consistent(forms, ps, ts, funcs) {
      forall fuel, v2, data, pos
        ensures Exec(fuel, v2, ps, funcs, Call(0), data, pos)
             == Read(fuel, v2, ps, StructOf(p), ts, StructOf(s), data, pos)
      {
        RootReads(fuel, v2, forms, ps, ts, funcs, p, s, data, pos);
      }
      if !inlineNested {
        CompleteBoth(Single(pairs), kept, true, {}, forms, ps, ts, funcs);
        assert kept + {} == kept;
        SlotsUnmixed(kept, forms, ps, ts, funcs);
      }
    }
  }

  lemma RootReads(fuel: nat, v2: bool, forms: seq<Pair>, ps: Schema, ts: Schema, funcs: seq<StructCode>, p: nat, s: nat,
                  data: seq<byte>, pos: nat)
    requires Consistent(forms, ps, ts, funcs) && forms != [] && forms[0] == (p, s) && p < |ps| && s < |ts|
    ensures Exec(fuel, v2, ps, funcs, Call(0), data, pos) == Read(fuel, v2, ps, StructOf(p), ts, StructOf(s), data, pos)
  {
    ExecReads(fuel, v2, {}, forms, ps, ts, funcs, Call(0), StructOf(p), StructOf(s), data, pos);
  }
}
