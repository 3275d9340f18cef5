/** Code that reads a struct through the untagged parser: it depends on the struct in the payload, and calls
    functions that were generated for one. */
module UntaggedCode {
  import opened Bytes
  import opened Deserialization
  import opened SimpleBinary
  import opened Slicing
  import opened Pairs

  datatype Code =
    | LoadScalar(t: byte)
    | Call(index: nat)
    | Inline(struct: StructCode)
    | Loop(elem: Code)
    | LoopMap(key: Code, elem: Code)
    | Throw
    | Pruned(body: Code)

  /** `Pruned` is code behind a comparison of types that cannot hold. `DeeperCode`: the payload has a level
      that the target has not. */
  datatype StructCode =
    | LevelCode(struct: nat, base: Option<StructCode>, fields: FieldCodes)
    | DeeperCode(inner: StructCode, skipped: Fields)

  datatype FieldCodes =
    | NoCode
    | SkipCode(pt: FieldType, rest: FieldCodes)
    | FieldCode(id: nat, code: Code, rest: FieldCodes)

  function Target(code: StructCode): nat {
    match code
    case LevelCode(s, _, _) => s
    case DeeperCode(base, _) => Target(base)
  }

  // ------------------------------------------------------------ running the code

  /** As in `Slicing.Read`, a nested struct takes one unit of fuel. */
  function Exec(fuel: nat, v2: bool, ps: Schema, funcs: seq<StructCode>, code: Code, data: seq<byte>, pos: nat)
    : (r: Option<(seq<Effect>, nat)>)
    ensures r.Some? ==> pos <= r.value.1
    decreases fuel, 0, code, 1
  {
    match code
    case LoadScalar(t) =>
      (match ReadScalar(v2, t, data, pos)
       case None => None
       case Some((v, next)) => Some(([Leaf(v)], next)))
    case Call(index) =>
      if fuel == 0 || index >= |funcs| then None
      else
        (match ExecStruct(fuel - 1, v2, ps, funcs, funcs[index], data, pos)
         case None => None
         case Some((effects, next)) =>
           var s := Target(funcs[index]);
           Some(([Fill(s)] + effects + [Filled(s)], next)))
    case Inline(body) =>
      if fuel == 0 then None
      else
        (match ExecStruct(fuel - 1, v2, ps, funcs, body, data, pos)
         case None => None
         case Some((effects, next)) => Some(([Fill(Target(body))] + effects + [Filled(Target(body))], next)))
    case Loop(elem) =>
      (match ReadCount(v2, data, pos)
       case None => None
       case Some((count, start)) =>
         match ExecItems(fuel, v2, ps, funcs, elem, count, data, start)
         case None => None
         case Some((effects, next)) => Some(([Resize(count)] + effects, next)))
    case LoopMap(key, elem) =>
      (match ReadCount(v2, data, pos)
       case None => None
       case Some((count, start)) =>
         match ExecEntries(fuel, v2, ps, funcs, key, elem, count, data, start)
         case None => None
         case Some((effects, next)) => Some(([Resize(count)] + effects, next)))
    case Throw => None
    case Pruned(_) => None
  }

  function ExecItems(fuel: nat, v2: bool, ps: Schema, funcs: seq<StructCode>, elem: Code, count: nat,
                     data: seq<byte>, pos: nat): (r: Option<(seq<Effect>, nat)>)
    ensures r.Some? ==> pos <= r.value.1
    decreases fuel, 0, elem, 2, count
  {
    if count == 0 then Some(([], pos))
    else
      match Exec(fuel, v2, ps, funcs, elem, data, pos)
      case None => None
      case Some((head, mid)) =>
        match ExecItems(fuel, v2, ps, funcs, elem, count - 1, data, mid)
        case None => None
        case Some((tail, next)) => Some((head + tail, next))
  }

  function ExecEntries(fuel: nat, v2: bool, ps: Schema, funcs: seq<StructCode>, key: Code, elem: Code, count: nat,
                       data: seq<byte>, pos: nat): (r: Option<(seq<Effect>, nat)>)
    ensures r.Some? ==> pos <= r.value.1
    decreases fuel, 0, LoopMap(key, elem), 0, count
  {
    if count == 0 then Some(([], pos))
    else
      match Exec(fuel, v2, ps, funcs, key, data, pos)
      case None => None
      case Some((k, mid)) =>
        match Exec(fuel, v2, ps, funcs, elem, data, mid)
        case None => None
        case Some((v, after)) =>
          match ExecEntries(fuel, v2, ps, funcs, key, elem, count - 1, data, after)
          case None => None
          case Some((rest, next)) => Some((k + (v + rest), next))
  }

  function ExecStruct(fuel: nat, v2: bool, ps: Schema, funcs: seq<StructCode>, code: StructCode,
                      data: seq<byte>, pos: nat): (r: Option<(seq<Effect>, nat)>)
    ensures r.Some? ==> pos <= r.value.1
    decreases fuel, 1, code
  {
    match code
    case DeeperCode(base, skipped) =>
      (match ExecStruct(fuel, v2, ps, funcs, base, data, pos)
       case None => None
       case Some((effects, next)) =>
         match SkipFields(fuel, v2, ps, skipped, data, next)
         case None => None
         case Some(end) => Some((effects, end)))
    case LevelCode(s, base, fields) =>
      match if base.Some? then ExecStruct(fuel, v2, ps, funcs, base.value, data, pos) else Some(([], pos))
      case None => None
      case Some((effects, mid)) =>
        match ExecFields(fuel, v2, ps, funcs, s, fields, data, mid)
        case None => None
        case Some((more, end)) => Some((effects + more, end))
  }

  function ExecFields(fuel: nat, v2: bool, ps: Schema, funcs: seq<StructCode>, s: nat, codes: FieldCodes,
                      data: seq<byte>, pos: nat): (r: Option<(seq<Effect>, nat)>)
    ensures r.Some? ==> pos <= r.value.1
    decreases fuel, 1, codes
  {
    match codes
    case NoCode => Some(([], pos))
    case SkipCode(pt, rest) =>
      (match Skip(fuel, v2, ps, pt, data, pos)
       case None => None
       case Some(next) =>
         match ExecFields(fuel, v2, ps, funcs, s, rest, data, next)
         case None => None
         case Some((more, end)) => Some(([] + more, end)))
    case FieldCode(id, code, rest) =>
      match Exec(fuel, v2, ps, funcs, code, data, pos)
      case None => None
      case Some((effects, next)) =>
        match ExecFields(fuel, v2, ps, funcs, s, rest, data, next)
        case None => None
        case Some((more, end)) => Some(([Assign(s, id)] + effects + more, end))
  }

  // ------------------------------------------------- what code is code for what

  /** `forms[i]` is what function `i` was generated for. A call is of a function for the right target;
      if `own`, for the right payload struct too. The structs in `kept` are not inlined. */
  ghost predicate CodeFor(own: bool, kept: set<nat>, forms: seq<Pair>, ps: Schema, ts: Schema, code: Code,
                          pt: FieldType, ft: FieldType)
    decreases code
  {
    match (code, pt, ft)
    case (LoadScalar(t), Scalar(t'), Scalar(_)) => t == t'
    case (Call(index), StructOf(p), StructOf(s)) =>
      && p < |ps| && s < |ts| && index < |forms| && forms[index].1 == s && (own ==> forms[index].0 == p)
    case (Inline(body), StructOf(p), StructOf(s)) => s !in kept && StructCodeFor(own, kept, forms, ps, ts, body, p, s)
    case (Loop(elem), ContainerOf(_, pe), ContainerOf(_, te)) => CodeFor(own, kept, forms, ps, ts, elem, pe, te)
    case (LoopMap(key, elem), MapOf(pk, pe), MapOf(tk, te)) =>
      CodeFor(own, kept, forms, ps, ts, key, pk, tk) && CodeFor(own, kept, forms, ps, ts, elem, pe, te)
    case (Throw, _, _) => !SameShape(pt, ft)
    case _ => false
  }

  predicate SameShape(pt: FieldType, ft: FieldType) {
    || (pt.Scalar? && ft.Scalar?) || (pt.StructOf? && ft.StructOf?) || (pt.ContainerOf? && ft.ContainerOf?)
    || (pt.MapOf? && ft.MapOf?)
  }

  ghost predicate StructCodeFor(own: bool, kept: set<nat>, forms: seq<Pair>, ps: Schema, ts: Schema, code: StructCode,
                                p: nat, s: nat)
    decreases code
  {
    && p < |ps| && s < |ts|
    && match code
       case DeeperCode(base, skipped) =>
         && Depth(ps, p) > Depth(ts, s) && skipped == ps[p].fields
         && StructCodeFor(own, kept, forms, ps, ts, base, Base(ps, p).value, s)
       case LevelCode(s', base, fields) =>
         && s' == s && Depth(ps, p) <= Depth(ts, s)
         && base.Some? == (Base(ps, p).Some? && Base(ts, s).Some?)
         && (base.Some? ==>
               StructCodeFor(own, kept, forms, ps, ts, base.value, Base(ps, p).value, Base(ts, s).value))
         && FieldCodesFor(own, kept, forms, ps, ts, fields, ps[p].fields, ts[s].fields)
  }

  ghost predicate FieldCodesFor(own: bool, kept: set<nat>, forms: seq<Pair>, ps: Schema, ts: Schema, codes: FieldCodes,
                                fields: Fields, targets: Fields)
    decreases codes
  {
    match (codes, fields)
    case (NoCode, NoFields) => true
    case (SkipCode(pt, more), FieldDef(id, _, pt', rest)) =>
      pt == pt' && Lookup(targets, id) == None && FieldCodesFor(own, kept, forms, ps, ts, more, rest, targets)
    case (FieldCode(id, code, more), FieldDef(id', _, pt, rest)) =>
      && id == id' && Lookup(targets, id).Some?
      && (!Fits(pt, Lookup(targets, id).value) ==> code.Pruned?)
      && CodeFor(own, kept, forms, ps, ts, if Fits(pt, Lookup(targets, id).value) then code else code.body, pt,
                 Lookup(targets, id).value)
      && FieldCodesFor(own, kept, forms, ps, ts, more, rest, targets)
    case _ => false
  }

  /** Code stays good when functions are added. */
  lemma {:induction false} CodeKept(own: bool, kept: set<nat>, forms: seq<Pair>, forms': seq<Pair>, ps: Schema,
                                    ts: Schema,
                                    code: Code, pt: FieldType, ft: FieldType)
    requires forms <= forms' && CodeFor(own, kept, forms, ps, ts, code, pt, ft)
    ensures CodeFor(own, kept, forms', ps, ts, code, pt, ft)
    decreases code
  {
    match (code, pt, ft)
    case (Inline(body), StructOf(p), StructOf(s)) => StructCodeKept(own, kept, forms, forms', ps, ts, body, p, s);
    case (Loop(elem), ContainerOf(_, pe), ContainerOf(_, te)) =>
      CodeKept(own, kept, forms, forms', ps, ts, elem, pe, te);
    case (LoopMap(key, elem), MapOf(pk, pe), MapOf(tk, te)) =>
      CodeKept(own, kept, forms, forms', ps, ts, key, pk, tk);
      CodeKept(own, kept, forms, forms', ps, ts, elem, pe, te);
    case _ =>
  }

  lemma {:induction false} StructCodeKept(own: bool, kept: set<nat>, forms: seq<Pair>, forms': seq<Pair>, ps: Schema,
                                          ts: Schema, code: StructCode, p: nat, s: nat)
    requires forms <= forms' && StructCodeFor(own, kept, forms, ps, ts, code, p, s)
    ensures StructCodeFor(own, kept, forms', ps, ts, code, p, s)
    decreases code
  {
    match code
    case DeeperCode(base, _) => StructCodeKept(own, kept, forms, forms', ps, ts, base, Base(ps, p).value, s);
    case LevelCode(_, base, fields) =>
      if base.Some? {
        StructCodeKept(own, kept, forms, forms', ps, ts, base.value, Base(ps, p).value, Base(ts, s).value);
      }
      FieldCodesKept(own, kept, forms, forms', ps, ts, fields, ps[p].fields, ts[s].fields);
  }

  lemma {:induction false} FieldCodesKept(own: bool, kept: set<nat>, forms: seq<Pair>, forms': seq<Pair>, ps: Schema,
                                          ts: Schema, codes: FieldCodes, fields: Fields, targets: Fields)
    requires forms <= forms' && FieldCodesFor(own, kept, forms, ps, ts, codes, fields, targets)
    ensures FieldCodesFor(own, kept, forms', ps, ts, codes, fields, targets)
    decreases codes
  {
    match (codes, fields)
    case (SkipCode(_, more), FieldDef(_, _, _, rest)) =>
      FieldCodesKept(own, kept, forms, forms', ps, ts, more, rest, targets);
    case (FieldCode(id, code, more), FieldDef(_, _, pt, rest)) =>
      var ft := Lookup(targets, id).value;
      CodeKept(own, kept, forms, forms', ps, ts, if Fits(pt, ft) then code else code.body, pt, ft);
      FieldCodesKept(own, kept, forms, forms', ps, ts, more, rest, targets);
    case _ =>
  }

  /** A finished table of functions. */
  ghost predicate Complete(own: bool, kept: set<nat>, forms: seq<Pair>, ps: Schema, ts: Schema,
                           funcs: seq<StructCode>) {
    && |forms| == |funcs|
    && forall i :: 0 <= i < |funcs| ==> StructCodeFor(own, kept, forms, ps, ts, funcs[i], forms[i].0, forms[i].1)
  }

  // --------------------------------------------------- code whose calls are its own

  lemma {:induction false} TargetIs(own: bool, kept: set<nat>, forms: seq<Pair>, ps: Schema, ts: Schema,
                                    code: StructCode, p: nat, s: nat)
    requires StructCodeFor(own, kept, forms, ps, ts, code, p, s)
    ensures p < |ps| && s < |ts| && Target(code) == s
    decreases code
  {
    if code.DeeperCode? {
      TargetIs(own, kept, forms, ps, ts, code.inner, Base(ps, p).value, s);
    }
  }

  /** If every call is of a function that was generated for the payload's struct, the code does on any
      bytes what reading each struct by its own schema does. */
  lemma {:induction false} ExecReads(fuel: nat, v2: bool, kept: set<nat>, forms: seq<Pair>, ps: Schema, ts: Schema,
                                     funcs: seq<StructCode>, code: Code, pt: FieldType, ft: FieldType,
                                     data: seq<byte>, pos: nat)
    requires Complete(true, kept, forms, ps, ts, funcs) && CodeFor(true, kept, forms, ps, ts, code, pt, ft)
    ensures Exec(fuel, v2, ps, funcs, code, data, pos) == Read(fuel, v2, ps, pt, ts, ft, data, pos)
    decreases fuel, 0, code, 1, 0
  {
    hide ReadScalar, ReadCount, ExecStruct, ReadStruct, ExecItems, ReadItems, ExecEntries, ReadEntries;
    match (code, pt, ft)
    case (Call(index), StructOf(p), StructOf(s)) =>
      if fuel > 0 {
        TargetIs(true, kept, forms, ps, ts, funcs[index], p, s);
        ExecStructReads(fuel - 1, v2, kept, forms, ps, ts, funcs, funcs[index], p, s, data, pos);
      }
    case (Inline(body), StructOf(p), StructOf(s)) =>
      if fuel > 0 {
        TargetIs(true, kept, forms, ps, ts, body, p, s);
        ExecStructReads(fuel - 1, v2, kept, forms, ps, ts, funcs, body, p, s, data, pos);
      }
    case (Loop(elem), ContainerOf(_, pe), ContainerOf(_, te)) =>
      if ReadCount(v2, data, pos).Some? {
        var (count, start) := ReadCount(v2, data, pos).value;
        ExecItemsReads(fuel, v2, kept, forms, ps, ts, funcs, elem, pt, te, count, data, start);
      }
    case (LoopMap(key, elem), MapOf(_, _), MapOf(_, _)) =>
      if ReadCount(v2, data, pos).Some? {
        var (count, start) := ReadCount(v2, data, pos).value;
        ExecEntriesReads(fuel, v2, kept, forms, ps, ts, funcs, key, elem, pt, ft, count, data, start);
      }
    case _ =>
  }

  lemma {:induction false} ExecItemsReads(fuel: nat, v2: bool, kept: set<nat>, forms: seq<Pair>, ps: Schema, ts: Schema,
                                          funcs: seq<StructCode>, elem: Code, pt: FieldType, te: FieldType, count: nat,
                                          data: seq<byte>, pos: nat)
    requires pt.ContainerOf? && Complete(true, kept, forms, ps, ts, funcs)
    requires CodeFor(true, kept, forms, ps, ts, elem, pt.elem, te)
    ensures ExecItems(fuel, v2, ps, funcs, elem, count, data, pos)
         == ReadItems(fuel, v2, ps, pt, ts, te, count, data, pos)
    decreases fuel, 0, elem, 2, count
  {
    hide Exec, Read, CodeFor, Complete;
    if count > 0 {
      ExecReads(fuel, v2, kept, forms, ps, ts, funcs, elem, pt.elem, te, data, pos);
      var r := Exec(fuel, v2, ps, funcs, elem, data, pos);
      if r.Some? {
        ExecItemsReads(fuel, v2, kept, forms, ps, ts, funcs, elem, pt, te, count - 1, data, r.value.1);
      }
    }
  }

  lemma {:induction false} ExecEntriesReads(fuel: nat, v2: bool, kept: set<nat>, forms: seq<Pair>, ps: Schema,
                                            ts: Schema,
                                            funcs: seq<StructCode>, key: Code, elem: Code, pt: FieldType,
                                            ft: FieldType, count: nat, data: seq<byte>, pos: nat)
    requires pt.MapOf? && ft.MapOf? && Complete(true, kept, forms, ps, ts, funcs)
    requires CodeFor(true, kept, forms, ps, ts, key, pt.key, ft.key)
    requires CodeFor(true, kept, forms, ps, ts, elem, pt.elem, ft.elem)
    ensures ExecEntries(fuel, v2, ps, funcs, key, elem, count, data, pos)
         == ReadEntries(fuel, v2, ps, pt, ts, ft, count, data, pos)
    decreases fuel, 0, LoopMap(key, elem), 0, count
  {
    hide Exec, Read, CodeFor, Complete;
    if count > 0 {
      ExecReads(fuel, v2, kept, forms, ps, ts, funcs, key, pt.key, ft.key, data, pos);
      var k := Exec(fuel, v2, ps, funcs, key, data, pos);
      if k.Some? {
        ExecReads(fuel, v2, kept, forms, ps, ts, funcs, elem, pt.elem, ft.elem, data, k.value.1);
        var v := Exec(fuel, v2, ps, funcs, elem, data, k.value.1);
        if v.Some? {
          ExecEntriesReads(fuel, v2, kept, forms, ps, ts, funcs, key, elem, pt, ft, count - 1, data, v.value.1);
        }
      }
    }
  }

  lemma {:induction false} ExecStructReads(fuel: nat, v2: bool, kept: set<nat>, forms: seq<Pair>, ps: Schema,
                                           ts: Schema,
                                           funcs: seq<StructCode>, code: StructCode, p: nat, s: nat,
                                           data: seq<byte>, pos: nat)
    requires Complete(true, kept, forms, ps, ts, funcs) && StructCodeFor(true, kept, forms, ps, ts, code, p, s)
    ensures ExecStruct(fuel, v2, ps, funcs, code, data, pos) == ReadStruct(fuel, v2, ps, p, ts, s, data, pos)
    decreases fuel, 1, code
  {
    hide ExecFields, ReadFields, SkipFields, FieldCodesFor, Complete;
    match code
    case DeeperCode(base, _) =>
      ExecStructReads(fuel, v2, kept, forms, ps, ts, funcs, base, Base(ps, p).value, s, data, pos);
    case LevelCode(_, base, fields) =>
      var mid := Some(([], pos));
      if base.Some? {
        ExecStructReads(fuel, v2, kept, forms, ps, ts, funcs, base.value, Base(ps, p).value, Base(ts, s).value, data,
                        pos);
        mid := ExecStruct(fuel, v2, ps, funcs, base.value, data, pos);
      }
      if mid.Some? {
        ExecFieldsReads(fuel, v2, kept, forms, ps, ts, funcs, s, fields, ps[p].fields, ts[s].fields, data,
                        mid.value.1);
      }
  }

  lemma {:induction false} ExecFieldsReads(fuel: nat, v2: bool, kept: set<nat>, forms: seq<Pair>, ps: Schema,
                                           ts: Schema,
                                           funcs: seq<StructCode>, s: nat, codes: FieldCodes, fields: Fields,
                                           targets: Fields, data: seq<byte>, pos: nat)
    requires Complete(true, kept, forms, ps, ts, funcs)
    requires FieldCodesFor(true, kept, forms, ps, ts, codes, fields, targets)
    ensures ExecFields(fuel, v2, ps, funcs, s, codes, data, pos)
         == ReadFields(fuel, v2, ps, fields, ts, s, targets, data, pos)
    decreases fuel, 1, codes
  {
    hide Exec, Read, Skip, CodeFor, Complete;
    match (codes, fields)
    case (SkipCode(_, more), FieldDef(_, _, pt, rest)) =>
      var next := Skip(fuel, v2, ps, pt, data, pos);
      if next.Some? {
        ExecFieldsReads(fuel, v2, kept, forms, ps, ts, funcs, s, more, rest, targets, data, next.value);
      }
    case (FieldCode(id, code, more), FieldDef(_, _, pt, rest)) =>
      var ft := Lookup(targets, id).value;
      if Fits(pt, ft) {
        ExecReads(fuel, v2, kept, forms, ps, ts, funcs, code, pt, ft, data, pos);
        var next := Exec(fuel, v2, ps, funcs, code, data, pos);
        if next.Some? {
          ExecFieldsReads(fuel, v2, kept, forms, ps, ts, funcs, s, more, rest, targets, data, next.value.1);
        }
      } else {
        PrunedFails(fuel, v2, ps, funcs, code, data, pos);
      }
    case _ =>
  }

  lemma PrunedFails(fuel: nat, v2: bool, ps: Schema, funcs: seq<StructCode>, code: Code, data: seq<byte>, pos: nat)
    requires code.Pruned?
    ensures Exec(fuel, v2, ps, funcs, code, data, pos) == None
  {
  }

  lemma InlineFor(own: bool, kept: set<nat>, forms: seq<Pair>, ps: Schema, ts: Schema, body: StructCode, p: nat, s: nat)
    requires StructCodeFor(own, kept, forms, ps, ts, body, p, s) && s !in kept
    ensures CodeFor(own, kept, forms, ps, ts, Inline(body), StructOf(p), StructOf(s))
  {
  }

  // --------------------------------------------------------------- weaker and joint claims

  lemma {:induction false} CodeBoth(own: bool, kept: set<nat>, own': bool, kept': set<nat>, forms: seq<Pair>,
                                    ps: Schema,
                                    ts: Schema, code: Code, pt: FieldType, ft: FieldType)
    requires CodeFor(own, kept, forms, ps, ts, code, pt, ft) && CodeFor(own', kept', forms, ps, ts, code, pt, ft)
    ensures CodeFor(own || own', kept + kept', forms, ps, ts, code, pt, ft)
    decreases code
  {
    match (code, pt, ft)
    case (Inline(body), StructOf(p), StructOf(s)) => StructCodeBoth(own, kept, own', kept', forms, ps, ts, body, p, s);
    case (Loop(elem), ContainerOf(_, pe), ContainerOf(_, te)) =>
      CodeBoth(own, kept, own', kept', forms, ps, ts, elem, pe, te);
    case (LoopMap(key, elem), MapOf(pk, pe), MapOf(tk, te)) =>
      CodeBoth(own, kept, own', kept', forms, ps, ts, key, pk, tk);
      CodeBoth(own, kept, own', kept', forms, ps, ts, elem, pe, te);
    case _ =>
  }

  lemma {:induction false} StructCodeBoth(own: bool, kept: set<nat>, own': bool, kept': set<nat>, forms: seq<Pair>,
                                          ps: Schema, ts: Schema, code: StructCode, p: nat, s: nat)
    requires StructCodeFor(own, kept, forms, ps, ts, code, p, s)
    requires StructCodeFor(own', kept', forms, ps, ts, code, p, s)
    ensures StructCodeFor(own || own', kept + kept', forms, ps, ts, code, p, s)
    decreases code
  {
    match code
    case DeeperCode(inner, _) => StructCodeBoth(own, kept, own', kept', forms, ps, ts, inner, Base(ps, p).value, s);
    case LevelCode(_, base, fields) =>
      if base.Some? {
        StructCodeBoth(own, kept, own', kept', forms, ps, ts, base.value, Base(ps, p).value, Base(ts, s).value);
      }
      FieldCodesBoth(own, kept, own', kept', forms, ps, ts, fields, ps[p].fields, ts[s].fields);
  }

  lemma {:induction false} FieldCodesBoth(own: bool, kept: set<nat>, own': bool, kept': set<nat>, forms: seq<Pair>,
                                          ps: Schema, ts: Schema, codes: FieldCodes, fields: Fields, targets: Fields)
    requires FieldCodesFor(own, kept, forms, ps, ts, codes, fields, targets)
    requires FieldCodesFor(own', kept', forms, ps, ts, codes, fields, targets)
    ensures FieldCodesFor(own || own', kept + kept', forms, ps, ts, codes, fields, targets)
    decreases codes
  {
    match (codes, fields)
    case (SkipCode(_, more), FieldDef(_, _, _, rest)) =>
      FieldCodesBoth(own, kept, own', kept', forms, ps, ts, more, rest, targets);
    case (FieldCode(id, code, more), FieldDef(_, _, pt, rest)) =>
      var ft := Lookup(targets, id).value;
      CodeBoth(own, kept, own', kept', forms, ps, ts, if Fits(pt, ft) then code else code.body, pt, ft);
      FieldCodesBoth(own, kept, own', kept', forms, ps, ts, more, rest, targets);
    case _ =>
  }

  lemma CompleteBoth(own: bool, kept: set<nat>, own': bool, kept': set<nat>, forms: seq<Pair>, ps: Schema, ts: Schema,
                     funcs: seq<StructCode>)
    requires Complete(own, kept, forms, ps, ts, funcs) && Complete(own', kept', forms, ps, ts, funcs)
    ensures Complete(own || own', kept + kept', forms, ps, ts, funcs)
  {
    forall i | 0 <= i < |funcs|
      ensures StructCodeFor(own || own', kept + kept', forms, ps, ts, funcs[i], forms[i].0, forms[i].1)
    {
      StructCodeBoth(own, kept, own', kept', forms, ps, ts, funcs[i], forms[i].0, forms[i].1);
    }
  }

  lemma {:induction false} CodeRelaxed(own: bool, kept: set<nat>, own': bool, kept': set<nat>, forms: seq<Pair>,
                                       ps: Schema, ts: Schema, code: Code, pt: FieldType, ft: FieldType)
    requires CodeFor(own, kept, forms, ps, ts, code, pt, ft) && kept' <= kept && (own' ==> own)
    ensures CodeFor(own', kept', forms, ps, ts, code, pt, ft)
    decreases code
  {
    match (code, pt, ft)
    case (Inline(body), StructOf(p), StructOf(s)) =>
      StructCodeRelaxed(own, kept, own', kept', forms, ps, ts, body, p, s);
    case (Loop(elem), ContainerOf(_, pe), ContainerOf(_, te)) =>
      CodeRelaxed(own, kept, own', kept', forms, ps, ts, elem, pe, te);
    case (LoopMap(key, elem), MapOf(pk, pe), MapOf(tk, te)) =>
      CodeRelaxed(own, kept, own', kept', forms, ps, ts, key, pk, tk);
      CodeRelaxed(own, kept, own', kept', forms, ps, ts, elem, pe, te);
    case _ =>
  }

  lemma {:induction false} StructCodeRelaxed(own: bool, kept: set<nat>, own': bool, kept': set<nat>, forms: seq<Pair>,
                                             ps: Schema, ts: Schema, code: StructCode, p: nat, s: nat)
    requires StructCodeFor(own, kept, forms, ps, ts, code, p, s) && kept' <= kept && (own' ==> own)
    ensures StructCodeFor(own', kept', forms, ps, ts, code, p, s)
    decreases code
  {
    match code
    case DeeperCode(inner, _) => StructCodeRelaxed(own, kept, own', kept', forms, ps, ts, inner, Base(ps, p).value, s);
    case LevelCode(_, base, fields) =>
      if base.Some? {
        StructCodeRelaxed(own, kept, own', kept', forms, ps, ts, base.value, Base(ps, p).value, Base(ts, s).value);
      }
      FieldCodesRelaxed(own, kept, own', kept', forms, ps, ts, fields, ps[p].fields, ts[s].fields);
  }

  lemma {:induction false} FieldCodesRelaxed(own: bool, kept: set<nat>, own': bool, kept': set<nat>, forms: seq<Pair>,
                                             ps: Schema, ts: Schema, codes: FieldCodes, fields: Fields, targets: Fields)
    requires FieldCodesFor(own, kept, forms, ps, ts, codes, fields, targets) && kept' <= kept && (own' ==> own)
    ensures FieldCodesFor(own', kept', forms, ps, ts, codes, fields, targets)
    decreases codes
  {
    match (codes, fields)
    case (SkipCode(_, more), FieldDef(_, _, _, rest)) =>
      FieldCodesRelaxed(own, kept, own', kept', forms, ps, ts, more, rest, targets);
    case (FieldCode(id, code, more), FieldDef(_, _, pt, rest)) =>
      var ft := Lookup(targets, id).value;
      CodeRelaxed(own, kept, own', kept', forms, ps, ts, if Fits(pt, ft) then code else code.body, pt, ft);
      FieldCodesRelaxed(own, kept, own', kept', forms, ps, ts, more, rest, targets);
    case _ =>
  }

  lemma CompleteRelaxed(own: bool, kept: set<nat>, own': bool, kept': set<nat>, forms: seq<Pair>, ps: Schema,
                        ts: Schema,
                        funcs: seq<StructCode>)
    requires Complete(own, kept, forms, ps, ts, funcs) && kept' <= kept && (own' ==> own)
    ensures Complete(own', kept', forms, ps, ts, funcs)
  {
    forall i | 0 <= i < |funcs|
      ensures StructCodeFor(own', kept', forms, ps, ts, funcs[i], forms[i].0, forms[i].1)
    {
      StructCodeRelaxed(own, kept, own', kept', forms, ps, ts, funcs[i], forms[i].0, forms[i].1);
    }
  }

  /** Whether calls are of functions for the struct in the payload does not change as functions are added. */
  lemma {:induction false} CodeSame(own: bool, kept: set<nat>, forms: seq<Pair>, forms': seq<Pair>, ps: Schema,
                                    ts: Schema, code: Code, pt: FieldType, ft: FieldType)
    requires forms <= forms' && CodeFor(own, kept, forms, ps, ts, code, pt, ft)
    ensures CodeFor(true, {}, forms, ps, ts, code, pt, ft) <==> CodeFor(true, {}, forms', ps, ts, code, pt, ft)
    decreases code
  {
    match (code, pt, ft)
    case (Inline(body), StructOf(p), StructOf(s)) => StructCodeSame(own, kept, forms, forms', ps, ts, body, p, s);
    case (Loop(elem), ContainerOf(_, pe), ContainerOf(_, te)) =>
      CodeSame(own, kept, forms, forms', ps, ts, elem, pe, te);
    case (LoopMap(key, elem), MapOf(pk, pe), MapOf(tk, te)) =>
      CodeSame(own, kept, forms, forms', ps, ts, key, pk, tk);
      CodeSame(own, kept, forms, forms', ps, ts, elem, pe, te);
    case _ =>
  }

  lemma {:induction false} StructCodeSame(own: bool, kept: set<nat>, forms: seq<Pair>, forms': seq<Pair>, ps: Schema,
                                          ts: Schema, code: StructCode, p: nat, s: nat)
    requires forms <= forms' && StructCodeFor(own, kept, forms, ps, ts, code, p, s)
    ensures StructCodeFor(true, {}, forms, ps, ts, code, p, s) <==> StructCodeFor(true, {}, forms', ps, ts, code, p, s)
    decreases code
  {
    match code
    case DeeperCode(inner, _) => StructCodeSame(own, kept, forms, forms', ps, ts, inner, Base(ps, p).value, s);
    case LevelCode(_, base, fields) =>
      if base.Some? {
        StructCodeSame(own, kept, forms, forms', ps, ts, base.value, Base(ps, p).value, Base(ts, s).value);
      }
      FieldCodesSame(own, kept, forms, forms', ps, ts, fields, ps[p].fields, ts[s].fields);
  }

  lemma {:induction false} FieldCodesSame(own: bool, kept: set<nat>, forms: seq<Pair>, forms': seq<Pair>, ps: Schema,
                                          ts: Schema, codes: FieldCodes, fields: Fields, targets: Fields)
    requires forms <= forms' && FieldCodesFor(own, kept, forms, ps, ts, codes, fields, targets)
    ensures FieldCodesFor(true, {}, forms, ps, ts, codes, fields, targets)
       <==> FieldCodesFor(true, {}, forms', ps, ts, codes, fields, targets)
    decreases codes
  {
    match (codes, fields)
    case (SkipCode(_, more), FieldDef(_, _, _, rest)) =>
      FieldCodesSame(own, kept, forms, forms', ps, ts, more, rest, targets);
    case (FieldCode(id, code, more), FieldDef(_, _, pt, rest)) =>
      var ft := Lookup(targets, id).value;
      CodeSame(own, kept, forms, forms', ps, ts, if Fits(pt, ft) then code else code.body, pt, ft);
      FieldCodesSame(own, kept, forms, forms', ps, ts, more, rest, targets);
    case _ =>
  }

  /** Every call in the functions, inlined code included, is of a function that was generated for the struct
      which the payload has there. */
  ghost predicate Consistent(forms: seq<Pair>, ps: Schema, ts: Schema, funcs: seq<StructCode>) {
    Complete(true, {}, forms, ps, ts, funcs)
  }
}
