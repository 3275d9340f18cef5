/** The bitmap in which the text parsers keep the required fields they have not met yet, and what they
    report at the end of a struct. */
module RequiredFields {
  import opened Bytes

  // -------------------------------------------------------------------- bits of a word

  function Pow2(k: nat): (r: nat)
    ensures r >= 1
  {
    if k == 0 then 1 else 2 * Pow2(k - 1)
  }

  function Bit(w: nat, i: nat): bool {
    if i == 0 then w % 2 == 1 else Bit(w / 2, i - 1)
  }

  const WORD: nat := 0x1_0000_0000_0000_0000

  /** A 64-bit word, its sign bit counted as the bit of 2^63. */
  type Word = w: nat | w < WORD

  lemma ByteBits()
    ensures Pow2(8) == 0x100
  {
    assert Pow2(4) == 0x10;
  }

  lemma WordBits()
    ensures Pow2(64) == WORD
  {
    hide Pow2;
    ByteBits();
    Pow2Adds(8, 8);
    Pow2Adds(16, 16);
    Pow2Adds(32, 32);
  }

  lemma {:induction false} Pow2Adds(i: nat, j: nat)
    ensures Pow2(i + j) == Pow2(i) * Pow2(j)
  {
    if i > 0 {
      Pow2Adds(i - 1, j);
    }
  }

  lemma {:induction false} Pow2Grows(i: nat, j: nat)
    requires i < j
    ensures Pow2(i) < Pow2(j)
  {
    if i + 1 < j {
      Pow2Grows(i, j - 1);
    }
  }

  function And(a: nat, b: nat): (r: nat)
    ensures r <= a
  {
    if a == 0 then 0 else 2 * And(a / 2, b / 2) + if a % 2 == 1 && b % 2 == 1 then 1 else 0
  }

  function Not(w: Word): Word {
    WORD - 1 - w
  }

  lemma {:induction false} BitOfAnd(a: nat, b: nat, i: nat)
    ensures Bit(And(a, b), i) <==> Bit(a, i) && Bit(b, i)
    decreases i
  {
    if a == 0 {
      NoBits(i);
    } else if i > 0 {
      BitOfAnd(a / 2, b / 2, i - 1);
      assert And(a, b) / 2 == And(a / 2, b / 2);
    }
  }

  lemma {:induction false} NoBits(i: nat)
    ensures !Bit(0, i)
  {
    if i > 0 {
      NoBits(i - 1);
    }
  }

  /** The complement in `n` bits. */
  lemma {:induction false} BitOfComplement(n: nat, w: nat, i: nat)
    requires w < Pow2(n)
    ensures Bit(Pow2(n) - 1 - w, i) <==> i < n && !Bit(w, i)
    decreases n
  {
    if n == 0 {
      NoBits(i);
    } else if i > 0 {
      BitOfComplement(n - 1, w / 2, i - 1);
      assert (Pow2(n) - 1 - w) / 2 == Pow2(n - 1) - 1 - w / 2;
    }
  }

  lemma {:induction false} BitOfPow2(k: nat, i: nat)
    ensures Bit(Pow2(k), i) <==> i == k
  {
    if i == 0 || k == 0 {
      if i > 0 {
        NoBits(i - 1);
      }
    } else {
      BitOfPow2(k - 1, i - 1);
    }
  }

  lemma {:induction false} LowBits(n: nat, i: nat)
    ensures Bit(Pow2(n) - 1, i) <==> i < n
  {
    BitOfComplement(n, 0, i);
    NoBits(i);
  }

  /** A word of `n` bits is zero exactly when none of them is set. */
  lemma {:induction false} SomeBit(w: nat, n: nat)
    requires 0 < w < Pow2(n)
    ensures exists i: nat :: i < n && Bit(w, i)
  {
    assert n > 0;
    if w % 2 == 1 {
      assert Bit(w, 0);
    } else {
      SomeBit(w / 2, n - 1);
      var i: nat :| i < n - 1 && Bit(w / 2, i);
      assert Bit(w, i + 1);
    }
  }

  /** Masking with a single bit tests that bit. */
  lemma TestBit(w: nat, i: nat)
    requires i < 64
    ensures And(w, Pow2(i)) == 0 <==> !Bit(w, i)
    ensures Pow2(i) < WORD
  {
    WordBits();
    Pow2Grows(i, 64);
    BitOfAnd(w, Pow2(i), i);
    BitOfPow2(i, i);
    if And(w, Pow2(i)) == 0 {
      NoBits(i);
    } else {
      SomeBit(And(w, Pow2(i)), AtMost(w));
      var j: nat :| Bit(And(w, Pow2(i)), j);
      BitOfAnd(w, Pow2(i), j);
      BitOfPow2(i, j);
    }
  }

  /** A number of bits that `w` fits in. */
  function AtMost(w: nat): (n: nat)
    ensures w < Pow2(n)
  {
    if w == 0 then 0 else 1 + AtMost(w / 2)
  }

  /** Masking with the complement of a single bit clears that bit and no other. */
  lemma ClearBit(w: Word, k: nat, i: nat)
    requires k < 64 && i < 64 && Pow2(k) < WORD
    ensures Bit(And(w, Not(Pow2(k))), i) <==> Bit(w, i) && i != k
  {
    WordBits();
    BitOfAnd(w, Not(Pow2(k)), i);
    BitOfComplement(64, Pow2(k), i);
    BitOfPow2(k, i);
  }

  // -------------------------------------------------------------------- the bitmap

  class Bitmap {
    const bitmap: array<Word>

    /** The fields whose bit is set. */
    ghost function Bits(): iset<nat>
      reads this, bitmap
    {
      iset k: nat | k / 64 < bitmap.Length && Bit(bitmap[k / 64], k % 64)
    }

    /** One bit a required field, all of them set. */
    constructor (count: nat)
      requires count > 0
      ensures fresh(bitmap)
      ensures bitmap.Length == 1 + (count - 1) / 64
      ensures forall k: nat :: k in Bits() <==> k < count
    {
      hide Bit, Pow2;
      var words := new Word[1 + (count - 1) / 64];
      var index, left := 0, count;
      WordBits();
      while left >= 64
        invariant left + 64 * index == count
        invariant index <= words.Length
        invariant forall j :: 0 <= j < index ==> words[j] == WORD - 1
        decreases left
      {
        words[index] := WORD - 1;
        index := index + 1;
        left := left - 64;
      }
      if left != 0 {
        Pow2Grows(left, 64);
        words[index] := Pow2(left) - 1;
      }
      bitmap := words;
      new;
      forall k: nat | k / 64 < bitmap.Length ensures Bit(bitmap[k / 64], k % 64) <==> k < count {
        LowBits(if k / 64 < index then 64 else left, k % 64);
      }
    }

    method Reset(index: nat, mask: Word)
      requires index < bitmap.Length
      modifies bitmap
      ensures bitmap[..] == old(bitmap[..])[index := And(old(bitmap[index]), Not(mask))]
    {
      bitmap[index] := And(bitmap[index], Not(mask));
    }

    /** Clears the bit of field `k` and no other. */
    method Mark(k: nat)
      requires k / 64 < bitmap.Length
      modifies bitmap
      ensures Bits() == old(Bits()) - iset{k}
    {
      hide Bit, Pow2, And, Not;
      TestBit(0, k % 64);
      ghost var was := bitmap[..];
      Reset(k / 64, Pow2(k % 64));
      forall j: nat | j / 64 < bitmap.Length
        ensures Bit(bitmap[j / 64], j % 64) <==> Bit(was[j / 64], j % 64) && j != k
      {
        assert bitmap[j / 64] == bitmap[..][j / 64];
        if j / 64 == k / 64 {
          ClearBit(was[j / 64], k % 64, j % 64);
        }
      }
    }

    method IsAnySet() returns (any: bool)
      ensures any <==> Bits() != iset{}
    {
      hide Bit, Pow2;
      WordBits();
      for i := 0 to bitmap.Length
        invariant forall k: nat :: k / 64 < i ==> k !in Bits()
      {
        if bitmap[i] != 0 {
          SomeBit(bitmap[i], 64);
          var b: nat :| b < 64 && Bit(bitmap[i], b);
          assert 64 * i + b in Bits();
          return true;
        }
        forall k: nat | k / 64 == i ensures k !in Bits() {
          NoBits(k % 64);
        }
      }
      any := false;
    }

    /** The least field whose bit is set. */
    method FirstSet() returns (first: nat)
      requires Bits() != iset{}
      ensures first in Bits()
      ensures forall j: nat :: j < first ==> j !in Bits()
    {
      hide Bit, Pow2, And;
      ghost var k: nat :| k in Bits();
      WordBits();
      var index, i := 0, 0;
      while bitmap[index] == 0
        invariant index <= k / 64
        invariant forall j: nat :: j / 64 < index ==> j !in Bits()
        decreases bitmap.Length - index
      {
        forall j: nat | j / 64 == index ensures j !in Bits() {
          NoBits(j % 64);
        }
        index := index + 1;
      }
      SomeBit(bitmap[index], 64);
      ghost var b: nat :| b < 64 && Bit(bitmap[index], b);
      TestBit(bitmap[index], i);
      while And(bitmap[index], Pow2(i)) == 0
        invariant i <= b
        invariant And(bitmap[index], Pow2(i)) == 0 <==> !Bit(bitmap[index], i)
        invariant forall j: nat :: j < i ==> !Bit(bitmap[index], j)
        decreases 64 - i
      {
        i := i + 1;
        TestBit(bitmap[index], i);
      }
      first := 64 * index + i;
      assert first / 64 == index && first % 64 == i;
    }
  }

  // -------------------------------------------------------------------- what a parser reports

  /** A field: the name by which a text parser tells it, and the one with its struct's in front. */
  datatype Named = Named(name: string, qualified: string, required: bool)

  function RequiredNames(fields: seq<Named>): (names: seq<string>)
    ensures |names| <= |fields|
  {
    if fields == [] then []
    else
      var last := fields[|fields| - 1];
      RequiredNames(fields[..|fields| - 1]) + if last.required then [last.qualified] else []
  }

  /** The place of field `k` among the required ones. */
  function RequiredIndex(fields: seq<Named>, k: nat): nat
    requires k <= |fields|
  {
    |RequiredNames(fields[..k])|
  }

  lemma {:induction false} Indexed(fields: seq<Named>, k: nat)
    requires k < |fields| && fields[k].required
    ensures RequiredIndex(fields, k) < |RequiredNames(fields)|
    ensures RequiredNames(fields)[RequiredIndex(fields, k)] == fields[k].qualified
  {
    var n := |fields| - 1;
    if k < n {
      Indexed(fields[..n], k);
      assert fields[..n][..k] == fields[..k];
    }
  }

  lemma {:induction false} IndexGrows(fields: seq<Named>, j: nat, k: nat)
    requires j < k <= |fields| && fields[j].required
    ensures RequiredIndex(fields, j) < RequiredIndex(fields, k)
  {
    assert fields[..k][..k - 1] == fields[..k - 1];
    if j < k - 1 {
      IndexGrows(fields, j, k - 1);
    } else {
      assert fields[..k][k - 1] == fields[j];
    }
  }

  lemma OwnIndex(fields: seq<Named>, j: nat, k: nat)
    requires j < |fields| && k < |fields| && fields[j].required && fields[k].required
    ensures RequiredIndex(fields, j) == RequiredIndex(fields, k) <==> j == k
  {
    if j < k {
      IndexGrows(fields, j, k);
    } else if k < j {
      IndexGrows(fields, k, j);
    }
  }

  /** Which field has a given place among the required ones. */
  lemma {:induction false} AtIndex(fields: seq<Named>, index: nat) returns (k: nat)
    requires index < |RequiredNames(fields)|
    ensures k < |fields| && fields[k].required && RequiredIndex(fields, k) == index
  {
    var n := |fields| - 1;
    if index < |RequiredNames(fields[..n])| {
      k := AtIndex(fields[..n], index);
      assert fields[..n][..k] == fields[..k];
    } else {
      k := n;
    }
  }

  /** The field that handles `name`: the chain of tests is built from the inside, so the last field
      of that name comes first. */
  function Handler(fields: seq<Named>, name: string): Option<nat> {
    if fields == [] then None
    else
      var n := |fields| - 1;
      if fields[n].name == name then Some(n) else Handler(fields[..n], name)
  }

  lemma {:induction false} HandlerIsLast(fields: seq<Named>, name: string)
    ensures match Handler(fields, name)
            case None => forall k :: 0 <= k < |fields| ==> fields[k].name != name
            case Some(h) =>
              && h < |fields| && fields[h].name == name
              && forall k :: h < k < |fields| ==> fields[k].name != name
  {
    if fields != [] {
      HandlerIsLast(fields[..|fields| - 1], name);
    }
  }

  /** Field `k` is met in `payload`, and no field behind it takes its name. */
  ghost predicate Met(fields: seq<Named>, payload: seq<string>, k: nat)
    requires k < |fields|
  {
    fields[k].name in payload && forall j :: k < j < |fields| ==> fields[j].name != fields[k].name
  }

  lemma MetNext(fields: seq<Named>, payload: seq<string>, n: nat, k: nat)
    requires n < |payload| && k < |fields|
    ensures Met(fields, payload[..n + 1], k)
       <==> Met(fields, payload[..n], k) || Handler(fields, payload[n]) == Some(k)
  {
    HandlerIsLast(fields, payload[n]);
    assert payload[..n + 1] == payload[..n] + [payload[n]];
  }

  /** `bits` are those of the required fields not yet met in `payload`. */
  ghost predicate Tracks(fields: seq<Named>, payload: seq<string>, bits: iset<nat>) {
    && (forall k :: 0 <= k < |fields| && fields[k].required ==>
          (RequiredIndex(fields, k) in bits <==> !Met(fields, payload, k)))
    && (forall i :: i in bits ==> i < |RequiredNames(fields)|)
  }

  lemma TracksNone(fields: seq<Named>, bits: iset<nat>)
    requires forall i: nat :: i in bits <==> i < |RequiredNames(fields)|
    ensures Tracks(fields, [], bits)
  {
    forall k | 0 <= k < |fields| && fields[k].required
      ensures RequiredIndex(fields, k) < |RequiredNames(fields)|
    {
      Indexed(fields, k);
    }
  }

  lemma NoneRequired(fields: seq<Named>)
    requires |RequiredNames(fields)| == 0
    ensures forall k :: 0 <= k < |fields| ==> !fields[k].required
  {
    forall k | 0 <= k < |fields| ensures !fields[k].required {
      if fields[k].required {
        Indexed(fields, k);
      }
    }
  }

  lemma TracksNext(fields: seq<Named>, payload: seq<string>, n: nat, bits: iset<nat>)
    requires n < |payload| && Tracks(fields, payload[..n], bits)
    ensures match Handler(fields, payload[n])
            case Some(h) =>
              && h < |fields|
              && (if fields[h].required then Tracks(fields, payload[..n + 1], bits - iset{RequiredIndex(fields, h)})
                  else Tracks(fields, payload[..n + 1], bits))
            case None => Tracks(fields, payload[..n + 1], bits)
  {
    hide Handler, RequiredNames, RequiredIndex, Met;
    HandlerIsLast(fields, payload[n]);
    forall k | 0 <= k < |fields| && fields[k].required
      ensures Met(fields, payload[..n + 1], k)
         <==> Met(fields, payload[..n], k) || Handler(fields, payload[n]) == Some(k)
      ensures forall h :: 0 <= h < |fields| && fields[h].required ==>
                (RequiredIndex(fields, h) == RequiredIndex(fields, k) <==> h == k)
    {
      MetNext(fields, payload, n, k);
      forall h | 0 <= h < |fields| && fields[h].required
        ensures RequiredIndex(fields, h) == RequiredIndex(fields, k) <==> h == k
      {
        OwnIndex(fields, h, k);
      }
    }
  }

  /** The required field with the qualified name `name` is the first that is not met. */
  ghost predicate Misses(fields: seq<Named>, payload: seq<string>, name: string) {
    exists k :: 0 <= k < |fields| && fields[k].required && !Met(fields, payload, k)
                && fields[k].qualified == name
                && forall j :: 0 <= j < k && fields[j].required ==> Met(fields, payload, j)
  }

  lemma TracksFirst(fields: seq<Named>, payload: seq<string>, bits: iset<nat>, first: nat)
    requires Tracks(fields, payload, bits)
    requires first in bits && forall i: nat :: i < first ==> i !in bits
    ensures first < |RequiredNames(fields)| && Misses(fields, payload, RequiredNames(fields)[first])
  {
    hide RequiredIndex, RequiredNames, Met;
    var k := AtIndex(fields, first);
    Indexed(fields, k);
    forall j | 0 <= j < k && fields[j].required ensures Met(fields, payload, j) {
      IndexGrows(fields, j, k);
    }
  }

  /** Reads a struct with the given fields from a payload that holds the given names in this order, and
      tells which required field is missing: the first one, in the order of the fields, that `payload`
      does not hold or that a field behind it hides. */
  method FirstMissing(fields: seq<Named>, payload: seq<string>) returns (missing: Option<string>)
    ensures missing == None <==> forall k :: 0 <= k < |fields| && fields[k].required ==> Met(fields, payload, k)
    ensures missing.Some? ==> Misses(fields, payload, missing.value)
  {
    hide RequiredIndex, RequiredNames, Met, Handler;
    var names := RequiredNames(fields);
    if |names| == 0 {
      NoneRequired(fields);
      return None;
    }
    var bits := new Bitmap(|names|);
    TracksNone(fields, bits.Bits());
    for n := 0 to |payload|
      invariant fresh(bits.bitmap) && bits.bitmap.Length == 1 + (|names| - 1) / 64
      invariant Tracks(fields, payload[..n], bits.Bits())
    {
      TracksNext(fields, payload, n, bits.Bits());
      var handler := Handler(fields, payload[n]);
      if handler.Some? && fields[handler.value].required {
        Indexed(fields, handler.value);
        bits.Mark(RequiredIndex(fields, handler.value));
      }
    }
    assert payload[..|payload|] == payload;
    var any := bits.IsAnySet();
    if !any {
      return None;
    }
    var first := bits.FirstSet();
    TracksFirst(fields, payload, bits.Bits(), first);
    missing := Some(names[first]);
  }

  /** A struct with a required field whose base has a field of the same name: whatever the payload, the
      field is found missing. */
  method HiddenField(payload: seq<string>) returns (missing: Option<string>)
    ensures missing == Some("Derived.id")
  {
    var fields := [Named("id", "Derived.id", true), Named("id", "Base.id", false)];
    missing := FirstMissing(fields, payload);
    assert fields[1].name == "id";
    assert !Met(fields, payload, 0);
  }
}
