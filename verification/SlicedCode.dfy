/** Generated code that reads a derived struct from Simple Binary into one of its bases: when it reads
    every payload rightly. */
module SlicedCode {
  import opened Bytes
  import opened Deserialization
  import opened Slicing
  import opened Pairs
  import opened UntaggedCode
  import opened UntaggedGenerator

  // ------------------------------------------------------------- structs inside structs

  predicate AllOf(some: set<nat>, ft: FieldType) {
    match ft
    case Scalar(_) => true
    case StructOf(t) => t in some
    case ContainerOf(_, elem) => AllOf(some, elem)
    case MapOf(key, elem) => AllOf(some, key) && AllOf(some, elem)
  }

  predicate FieldsOf(some: set<nat>, fields: Fields) {
    match fields
    case NoFields => true
    case FieldDef(_, _, ft, rest) => AllOf(some, ft) && FieldsOf(some, rest)
  }

  /** All structs that occur in the fields of `t` and of its bases are in `some`. */
  predicate LevelsOf(some: set<nat>, schema: Schema, t: nat)
    requires t < |schema|
    decreases t
  {
    (Base(schema, t).Some? ==> LevelsOf(some, schema, Base(schema, t).value)) && FieldsOf(some, schema[t].fields)
  }

  ghost predicate ClosedStructs(some: set<nat>, schema: Schema) {
    forall t :: t in some ==> t < |schema| && LevelsOf(some, schema, t)
  }

  /** A value of struct `a` can have one of struct `b` inside: `b` is in every closed set of structs that has
      those in the fields of `a`. */
  ghost predicate Reaches(schema: Schema, a: nat, b: nat)
    requires a < |schema|
  {
    forall some: set<nat> :: ClosedStructs(some, schema) && LevelsOf(some, schema, a) ==> b in some
  }

  // --------------------------------------------------------- the pairs that meet in a slice

  ghost function Same(some: set<nat>): set<Pair> {
    set t | t in some :: (t, t)
  }

  lemma {:induction false} SameIn(some: set<nat>, pairs: set<Pair>, ft: FieldType)
    requires Same(some) <= pairs && AllOf(some, ft)
    ensures AllIn(pairs, ft, ft)
  {
    match ft
    case StructOf(t) => assert (t, t) in Same(some);
    case ContainerOf(_, elem) => SameIn(some, pairs, elem);
    case MapOf(key, elem) =>
      SameIn(some, pairs, key);
      SameIn(some, pairs, elem);
    case _ =>
  }

  lemma {:induction false} SameFieldsIn(some: set<nat>, pairs: set<Pair>, fields: Fields, targets: Fields)
    requires Same(some) <= pairs && FieldsOf(some, fields) && Sorted(fields) && Suffices(fields, targets, fields)
    ensures FieldsIn(pairs, fields, targets)
  {
    if fields.FieldDef? {
      assert Lookup(targets, fields.id) == Lookup(fields, fields.id) == Some(fields.ft);
      SameIn(some, pairs, fields.ft);
      SameFieldsIn(some, pairs, fields.rest, targets);
    }
  }

  lemma {:induction false} SameStructIn(some: set<nat>, pairs: set<Pair>, schema: Schema, t: nat)
    requires Same(some) <= pairs && Regular(schema) && t < |schema| && LevelsOf(some, schema, t)
    ensures StructIn(pairs, schema, schema, t, t)
    decreases t
  {
    SufficesAll(schema[t].fields, schema[t].fields);
    SameFieldsIn(some, pairs, schema[t].fields, schema[t].fields);
    if Base(schema, t).Some? {
      SameStructIn(some, pairs, schema, Base(schema, t).value);
    }
  }

  lemma {:induction false} DeeperThanBase(schema: Schema, s: nat, p: nat)
    requires s < |schema| && p < |schema| && Ancestor(schema, s, p)
    ensures s != p ==> Depth(schema, p) > Depth(schema, s) && Base(schema, p).Some?
    decreases p
  {
    if s != p {
      DeeperThanBase(schema, s, Base(schema, p).value);
    }
  }

  lemma {:induction false} SliceIn(some: set<nat>, pairs: set<Pair>, schema: Schema, p: nat, s: nat)
    requires Same(some) <= pairs && Regular(schema) && s < |schema| && p < |schema| && Ancestor(schema, s, p)
    requires LevelsOf(some, schema, s)
    ensures StructIn(pairs, schema, schema, p, s)
    decreases p
  {
    DeeperThanBase(schema, s, p);
    if p == s {
      SameStructIn(some, pairs, schema, s);
    } else {
      SliceIn(some, pairs, schema, Base(schema, p).value, s);
    }
  }

  lemma SliceClosed(some: set<nat>, schema: Schema, p: nat, s: nat)
    requires Regular(schema) && s < |schema| && p < |schema| && Ancestor(schema, s, p)
    requires ClosedStructs(some, schema) && LevelsOf(some, schema, s)
    ensures Closed(Same(some) + {(p, s)}, schema, schema)
  {
    var pairs := Same(some) + {(p, s)};
    forall pair | pair in pairs
      ensures pair.0 < |schema| && pair.1 < |schema| && StructIn(pairs, schema, schema, pair.0, pair.1)
    {
      if pair == (p, s) {
        SliceIn(some, pairs, schema, p, s);
      } else {
        SameStructIn(some, pairs, schema, pair.0);
      }
    }
  }

  lemma {:induction false} RefersAll(schema: Schema, ft: FieldType)
    requires Refers(schema, ft)
    ensures AllOf(UpTo(|schema|), ft)
  {
    match ft
    case ContainerOf(_, elem) => RefersAll(schema, elem);
    case MapOf(key, elem) =>
      RefersAll(schema, key);
      RefersAll(schema, elem);
    case _ =>
  }

  lemma {:induction false} FieldsAll(schema: Schema, fields: Fields)
    requires AllRefer(schema, fields)
    ensures FieldsOf(UpTo(|schema|), fields)
  {
    if fields.FieldDef? {
      RefersAll(schema, fields.ft);
      FieldsAll(schema, fields.rest);
    }
  }

  lemma {:induction false} LevelsAll(schema: Schema, t: nat)
    requires WellFormed(schema) && t < |schema|
    ensures LevelsOf(UpTo(|schema|), schema, t)
    decreases t
  {
    FieldsAll(schema, schema[t].fields);
    if Base(schema, t).Some? {
      LevelsAll(schema, Base(schema, t).value);
    }
  }

  // ------------------------------------------------- consistent code reaches nothing twice

  /** There is code for `t`, somewhere in the functions, whose calls are its own. */
  ghost predicate HasCode(schema: Schema, forms: seq<Pair>, s: nat, t: nat) {
    exists code :: StructCodeFor(true, {s}, forms, schema, schema, code, t, t)
  }

  ghost function WithCode(schema: Schema, forms: seq<Pair>, s: nat): set<nat> {
    set t | t in UpTo(|schema|) && t != s && HasCode(schema, forms, s, t)
  }

  /** The functions of a slice of `p` to `s`, all calls their own; only `s` is read from another struct. */
  ghost predicate SliceTable(schema: Schema, forms: seq<Pair>, funcs: seq<StructCode>, own: bool, p: nat, s: nat) {
    && Complete(own, {s}, forms, schema, schema, funcs) && forms != [] && forms[0] == (p, s)
    && (forall i :: 0 < i < |forms| ==> forms[i].0 == forms[i].1)
    && (forall i, j :: 0 <= i < |forms| && 0 <= j < |forms| && forms[i].1 == forms[j].1 ==> i == j)
  }

  lemma {:induction false} CodeCoded(schema: Schema, forms: seq<Pair>, funcs: seq<StructCode>, p: nat, s: nat,
                                     code: Code, ft: FieldType)
    requires SliceTable(schema, forms, funcs, true, p, s) && p != s
    requires CodeFor(true, {s}, forms, schema, schema, code, ft, ft)
    ensures AllOf(WithCode(schema, forms, s), ft)
    decreases code
  {
    match (code, ft)
    case (Call(index), StructOf(t)) =>
      assert forms[index] == (t, t);
      assert StructCodeFor(true, {s}, forms, schema, schema, funcs[index], forms[index].0, forms[index].1);
    case (Inline(body), StructOf(t)) => assert StructCodeFor(true, {s}, forms, schema, schema, body, t, t);
    case (Loop(elem), ContainerOf(_, te)) => CodeCoded(schema, forms, funcs, p, s, elem, te);
    case (LoopMap(key, elem), MapOf(tk, te)) =>
      CodeCoded(schema, forms, funcs, p, s, key, tk);
      CodeCoded(schema, forms, funcs, p, s, elem, te);
    case _ =>
  }

  lemma {:induction false} FieldCodesCoded(schema: Schema, forms: seq<Pair>, funcs: seq<StructCode>, p: nat, s: nat,
                                           codes: FieldCodes, fields: Fields, targets: Fields)
    requires SliceTable(schema, forms, funcs, true, p, s) && p != s
    requires Sorted(fields) && Suffices(fields, targets, fields)
    requires FieldCodesFor(true, {s}, forms, schema, schema, codes, fields, targets)
    ensures FieldsOf(WithCode(schema, forms, s), fields)
    decreases codes
  {
    hide SliceTable;
    if fields.FieldDef? {
      assert Lookup(targets, fields.id) == Lookup(fields, fields.id) == Some(fields.ft);
      CodeCoded(schema, forms, funcs, p, s, codes.code, fields.ft);
      FieldCodesCoded(schema, forms, funcs, p, s, codes.rest, fields.rest, targets);
    }
  }

  lemma {:induction false} StructCodeCoded(schema: Schema, forms: seq<Pair>, funcs: seq<StructCode>, p: nat, s: nat,
                                           code: StructCode, t: nat)
    requires SliceTable(schema, forms, funcs, true, p, s) && p != s && Regular(schema)
    requires StructCodeFor(true, {s}, forms, schema, schema, code, t, t)
    ensures LevelsOf(WithCode(schema, forms, s), schema, t)
    decreases code
  {
    hide SliceTable;
    SufficesAll(schema[t].fields, schema[t].fields);
    FieldCodesCoded(schema, forms, funcs, p, s, code.fields, schema[t].fields, schema[t].fields);
    if code.base.Some? {
      StructCodeCoded(schema, forms, funcs, p, s, code.base.value, Base(schema, t).value);
    }
  }

  /** The part of the code for a slice that reads the target's own levels. */
  lemma {:induction false} InnerCode(own: bool, schema: Schema, forms: seq<Pair>, code: StructCode, p: nat, s: nat)
    returns (inner: StructCode)
    requires s < |schema| && p < |schema| && Ancestor(schema, s, p)
    requires StructCodeFor(own, {s}, forms, schema, schema, code, p, s)
    ensures StructCodeFor(own, {s}, forms, schema, schema, inner, s, s)
    decreases code
  {
    DeeperThanBase(schema, s, p);
    if p == s {
      inner := code;
    } else {
      inner := InnerCode(own, schema, forms, code.inner, Base(schema, p).value, s);
    }
  }

  /** If the calls are consistent although `s` is read from another struct, `s` does not reach itself. */
  lemma OwnSliceReachesNot(schema: Schema, forms: seq<Pair>, funcs: seq<StructCode>, p: nat, s: nat)
    requires SliceTable(schema, forms, funcs, true, p, s) && p != s && Regular(schema)
    requires s < |schema| && p < |schema| && Ancestor(schema, s, p)
    ensures !Reaches(schema, s, s)
  {
    var some := WithCode(schema, forms, s);
    forall t | t in some ensures t < |schema| && LevelsOf(some, schema, t) {
      var code :| StructCodeFor(true, {s}, forms, schema, schema, code, t, t);
      StructCodeCoded(schema, forms, funcs, p, s, code, t);
    }
    assert ClosedStructs(some, schema);
    var inner := InnerCode(true, schema, forms, funcs[0], p, s);
    StructCodeCoded(schema, forms, funcs, p, s, inner, s);
  }

  /** The functions for reading `p`, a struct derived from `s`, into `s`. Their calls are consistent if and
      only if the two are the same struct or `s` does not reach itself. */
  method CompileSlice(schema: Schema, p: nat, s: nat, inlineNested: bool)
    returns (funcs: seq<StructCode>, ghost forms: seq<Pair>)
    requires WellFormed(schema) && Regular(schema)
    requires s < |schema| && p < |schema| && Ancestor(schema, s, p)
    ensures SliceTable(schema, forms, funcs, false, p, s)
    ensures Consistent(forms, schema, schema, funcs) <==> p == s || !Reaches(schema, s, s)
    ensures p == s || !Reaches(schema, s, s) ==>
              forall fuel, v2, data, pos ::
                Exec(fuel, v2, schema, funcs, Call(0), data, pos)
                == Read(fuel, v2, schema, StructOf(p), schema, StructOf(s), data, pos)
  {
    hide Complete, Closed, ClosedStructs, Single;
    ghost var some := UpTo(|schema|);
    AllStructsClosed(schema);
    LevelsAll(schema, s);
    if !Reaches(schema, s, s) {
      some :| ClosedStructs(some, schema) && LevelsOf(some, schema, s) && s !in some;
    }
    SliceClosed(some, schema, p, s);
    ghost var pairs := Same(some) + {(p, s)};
    var transform := new UntaggedTransform(schema, schema, inlineNested, pairs, {s});
    funcs := transform.Generate(p, s);
    forms := transform.forms;
    CompleteRelaxed(Single(pairs), {s}, false, {s}, forms, schema, schema, funcs);
    if p == s || s !in some {
      OneEach(some, p, s);
      CompleteRelaxed(true, {s}, true, {}, forms, schema, schema, funcs);
      forall fuel, v2, data, pos
        ensures Exec(fuel, v2, schema, funcs, Call(0), data, pos)
             == Read(fuel, v2, schema, StructOf(p), schema, StructOf(s), data, pos)
      {
        RootReads(fuel, v2, forms, schema, schema, funcs, p, s, data, pos);
      }
    }
    if Consistent(forms, schema, schema, funcs) && p != s {
      CompleteBoth(false, {s}, true, {}, forms, schema, schema, funcs);
      assert {s} + {} == {s};
      OwnSliceReachesNot(schema, forms, funcs, p, s);
    }
  }

  lemma AllStructsClosed(schema: Schema)
    requires WellFormed(schema)
    ensures ClosedStructs(UpTo(|schema|), schema)
  {
    forall t | t in UpTo(|schema|) ensures LevelsOf(UpTo(|schema|), schema, t) {
      LevelsAll(schema, t);
    }
  }

  lemma OneEach(some: set<nat>, p: nat, s: nat)
    requires p == s || s !in some
    ensures Single(Same(some) + {(p, s)})
  {
  }
}
