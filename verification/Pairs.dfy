/** Which structs of a payload meet which structs of the target. */
module Pairs {
  import opened Deserialization
  import opened Slicing

  /** The payload's struct and the target's. */
  type Pair = (nat, nat)

  /** All structs of `pt` that are read into structs of `ft`. */
  predicate AllIn(pairs: set<Pair>, pt: FieldType, ft: FieldType) {
    match (pt, ft)
    case (StructOf(p), StructOf(s)) => (p, s) in pairs
    case (ContainerOf(_, pe), ContainerOf(_, te)) => AllIn(pairs, pe, te)
    case (MapOf(pk, pe), MapOf(tk, te)) => AllIn(pairs, pk, tk) && AllIn(pairs, pe, te)
    case _ => true
  }

  predicate FieldsIn(pairs: set<Pair>, fields: Fields, targets: Fields) {
    match fields
    case NoFields => true
    case FieldDef(id, _, pt, rest) =>
      && (Lookup(targets, id).Some? ==> AllIn(pairs, pt, Lookup(targets, id).value))
      && FieldsIn(pairs, rest, targets)
  }

  predicate StructIn(pairs: set<Pair>, ps: Schema, ts: Schema, p: nat, s: nat)
    requires p < |ps| && s < |ts|
    decreases p
  {
    if Depth(ps, p) > Depth(ts, s) then StructIn(pairs, ps, ts, Base(ps, p).value, s)
    else
      && (Base(ps, p).Some? && Base(ts, s).Some? ==>
            StructIn(pairs, ps, ts, Base(ps, p).value, Base(ts, s).value))
      && FieldsIn(pairs, ps[p].fields, ts[s].fields)
  }

  /** Whatever is nested in a struct of `pairs` is in `pairs`. */
  ghost predicate Closed(pairs: set<Pair>, ps: Schema, ts: Schema) {
    forall pair :: pair in pairs ==> pair.0 < |ps| && pair.1 < |ts| && StructIn(pairs, ps, ts, pair.0, pair.1)
  }

  /** No target struct meets two payload structs. */
  ghost predicate Single(pairs: set<Pair>) {
    forall a, b :: a in pairs && b in pairs && a.1 == b.1 ==> a == b
  }

  lemma PairIn(pairs: set<Pair>, ps: Schema, ts: Schema, p: nat, s: nat)
    requires Closed(pairs, ps, ts) && (p, s) in pairs
    ensures p < |ps| && s < |ts| && StructIn(pairs, ps, ts, p, s)
  {
    assert (p, s).0 == p && (p, s).1 == s;
  }

  /** Reading `p` into `s`, no target struct meets two payload structs. */
  ghost predicate Unmixed(ps: Schema, ts: Schema, p: nat, s: nat) {
    exists pairs :: Closed(pairs, ps, ts) && (p, s) in pairs && Single(pairs)
  }

  ghost function UpTo(n: nat): (r: set<nat>)
    ensures forall t: nat :: t in r <==> t < n
  {
    if n == 0 then {} else UpTo(n - 1) + {n - 1}
  }

  ghost function AllPairs(ps: Schema, ts: Schema): set<Pair> {
    set p, s | 0 <= p < |ps| && 0 <= s < |ts| :: (p, s)
  }

  lemma {:induction false} AllRefersIn(ps: Schema, ts: Schema, pt: FieldType, ft: FieldType)
    requires Refers(ps, pt) && Refers(ts, ft)
    ensures AllIn(AllPairs(ps, ts), pt, ft)
  {
    match (pt, ft)
    case (ContainerOf(_, pe), ContainerOf(_, te)) => AllRefersIn(ps, ts, pe, te);
    case (MapOf(pk, pe), MapOf(tk, te)) =>
      AllRefersIn(ps, ts, pk, tk);
      AllRefersIn(ps, ts, pe, te);
    case _ =>
  }

  lemma {:induction false} LookupRefers(ts: Schema, targets: Fields, id: nat)
    requires AllRefer(ts, targets) && Lookup(targets, id).Some?
    ensures Refers(ts, Lookup(targets, id).value)
  {
    if targets.id != id {
      LookupRefers(ts, targets.rest, id);
    }
  }

  lemma {:induction false} AllFieldsIn(ps: Schema, ts: Schema, fields: Fields, targets: Fields)
    requires AllRefer(ps, fields) && AllRefer(ts, targets)
    ensures FieldsIn(AllPairs(ps, ts), fields, targets)
  {
    if fields.FieldDef? {
      if Lookup(targets, fields.id).Some? {
        LookupRefers(ts, targets, fields.id);
        AllRefersIn(ps, ts, fields.ft, Lookup(targets, fields.id).value);
      }
      AllFieldsIn(ps, ts, fields.rest, targets);
    }
  }

  lemma {:induction false} AllStructsIn(ps: Schema, ts: Schema, p: nat, s: nat)
    requires WellFormed(ps) && WellFormed(ts) && p < |ps| && s < |ts|
    ensures StructIn(AllPairs(ps, ts), ps, ts, p, s)
    decreases p
  {
    if Depth(ps, p) > Depth(ts, s) {
      AllStructsIn(ps, ts, Base(ps, p).value, s);
    } else {
      AllFieldsIn(ps, ts, ps[p].fields, ts[s].fields);
      if Base(ps, p).Some? && Base(ts, s).Some? {
        AllStructsIn(ps, ts, Base(ps, p).value, Base(ts, s).value);
      }
    }
  }

  lemma AllClosed(ps: Schema, ts: Schema)
    requires WellFormed(ps) && WellFormed(ts)
    ensures Closed(AllPairs(ps, ts), ps, ts)
  {
    forall pair | pair in AllPairs(ps, ts)
      ensures pair.0 < |ps| && pair.1 < |ts| && StructIn(AllPairs(ps, ts), ps, ts, pair.0, pair.1)
    {
      AllStructsIn(ps, ts, pair.0, pair.1);
    }
  }
}
