/** How deserialized arrays grow: room for at most a preset number of elements is made before the
    count in the payload has been borne out by actual elements. */
module Containers {
  import opened Bytes
  import opened Wire

  /** The length an array of length `length` grows to when it is full. */
  function Grown(length: nat): (r: nat)
    ensures r > length
  {
    2 * if length < 32 then 32 else length
  }

  /** Growing from `length` reaches `count` before a length overflows 32 bits. */
  predicate Reaches(length: nat, count: nat)
    decreases count - length
  {
    length >= count || (Grown(length) <= INT_MAX && Reaches(Grown(length), count))
  }

  /** No initial length stands in the way of 2^30 elements, or of as many as there is room for. */
  lemma {:induction false} ReachesSmall(length: nat, count: nat)
    requires count <= 0x4000_0000
    ensures Reaches(length, count)
    decreases count - length
  {
    if length < count {
      ReachesSmall(Grown(length), count);
    }
  }

  function Doubled(length: nat, k: nat): (r: nat)
    ensures r >= length
  {
    if k == 0 then length else 2 * Doubled(length, k - 1)
  }

  lemma {:induction false} DoubledOnce(length: nat, k: nat)
    ensures Doubled(2 * length, k) == Doubled(length, k + 1)
  {
    if k > 0 {
      DoubledOnce(length, k - 1);
    }
  }

  /** A length that is enough, and can be had, comes of doubling. */
  ghost predicate Doubles(length: nat, count: nat) {
    exists k: nat :: k >= 1 && count <= Doubled(length, k) <= INT_MAX
  }

  lemma DoublesFurther(length: nat, count: nat)
    requires length < count
    ensures Doubles(length, count) <==> 2 * length <= INT_MAX && (2 * length >= count || Doubles(2 * length, count))
  {
    assert Doubled(length, 1) == 2 * Doubled(length, 0) == 2 * length;
    if Doubles(length, count) {
      var k: nat :| k >= 1 && count <= Doubled(length, k) <= INT_MAX;
      DoubledOnce(length, k - 1);
      assert 2 * length <= Doubled(2 * length, k - 1);
    }
    if 2 * length <= INT_MAX && Doubles(2 * length, count) {
      var k: nat :| k >= 1 && count <= Doubled(2 * length, k) <= INT_MAX;
      DoubledOnce(length, k);
    }
  }

  /** Reading fails unless doubling the length, taken as 32 at least, gets to the count within 2^31 - 1. */
  lemma {:induction false} ReachesExactly(length: nat, count: nat)
    ensures Reaches(length, count) <==> length >= count || Doubles(if length < 32 then 32 else length, count)
    decreases count - length
  {
    if length < count {
      var n := if length < 32 then 32 else length;
      if n >= count {
        assert Doubled(n, 1) == 2 * Doubled(n, 0) == 2 * n;
      } else {
        DoublesFurther(n, count);
      }
      ReachesExactly(2 * n, count);
    }
  }

  /** With blobs the first step is to 1024. */
  lemma {:induction false} BlobReachesExactly(length: nat, count: nat)
    ensures BlobReaches(length, count) <==> length >= count || Doubles(if length <= 512 then 512 else length, count)
    decreases count - length
  {
    if length < count {
      var n := if length <= 512 then 512 else length;
      if n >= count {
        assert Doubled(n, 1) == 2 * Doubled(n, 0) == 2 * n;
      } else {
        DoublesFurther(n, count);
      }
      BlobReachesExactly(2 * n, count);
    }
  }

  lemma ReachesFurther(length: nat, count: nat)
    requires length < count
    ensures Reaches(length, count) <==> Grown(length) <= INT_MAX && Reaches(Grown(length), count)
  {
  }

  /** Copies what fits into a new array. */
  method Resize<T(0)>(a: array<T>, length: nat) returns (r: array<T>)
    ensures fresh(r) && r.Length == length
    ensures if a.Length < length then r[..a.Length] == a[..] else r[..] == a[..length]
  {
    r := new T[length];
    var n := if a.Length < length then a.Length else length;
    for i := 0 to n
      invariant r[..i] == a[..i]
    {
      r[i] := a[i];
      assert r[..i + 1] == r[..i] + [a[i]];
    }
    assert a[..a.Length] == a[..] && r[..length] == r[..];
  }

  /** The element loop over an array that is already there, new or reused: whatever its length, the
      outcome is the payload's elements, all of them, in order and nothing else. It fails only
      when the length to grow to overflows. */
  method ReadInto<T(0)>(items: seq<T>, container: array<T>) returns (r: Option<array<T>>)
    modifies container
    ensures r.Some? <==> Reaches(container.Length, |items|)
    ensures r.Some? ==> r.value[..] == items
  {
    var a := container;
    for i := 0 to |items|
      invariant i <= a.Length && a[..i] == items[..i]
      invariant a == container || fresh(a)
      invariant Reaches(a.Length, |items|) <==> Reaches(container.Length, |items|)
    {
      if i == a.Length {
        ReachesFurther(a.Length, |items|);
        if Grown(i) > INT_MAX {
          return None;
        }
        var before := a;
        a := Resize(before, Grown(i));
        assert before[..i] == before[..];
      }
      a[i] := items[i];
      assert a[..i + 1] == a[..i] + [items[i]];
    }
    if a.Length > |items| {
      a := Resize(a, |items|);
    }
    r := Some(a);
  }

  /** With a new array, of at most `cap` elements. */
  method ReadArray<T(0)>(items: seq<T>, cap: nat) returns (r: Option<array<T>>)
    requires |items| <= INT_MAX && cap <= INT_MAX
    ensures r.Some? <==> |items| <= cap || Reaches(cap, |items|)
    ensures r.Some? ==> r.value[..] == items
  {
    var count := |items|;
    if count > cap {
      count := cap;
    }
    var a := new T[count];
    r := ReadInto(items, a);
  }

  /** Blobs read byte by byte grow in larger steps and keep the spare room. */
  predicate BlobReaches(length: nat, count: nat)
    decreases count - length
  {
    length >= count
    || (length <= 512 && BlobReaches(1024, count))
    || (length > 512 && 2 * length <= INT_MAX && BlobReaches(2 * length, count))
  }

  method ReadBlob(items: seq<byte>, cap: nat) returns (r: Option<(array<byte>, nat)>)
    requires |items| <= INT_MAX && cap <= INT_MAX
    ensures r.Some? <==> |items| <= cap || BlobReaches(cap, |items|)
    ensures r.Some? ==> r.value.1 <= r.value.0.Length && r.value.0[..r.value.1] == items
  {
    var count := if |items| > cap then cap else |items|;
    var a := new byte[count];
    for index := 0 to |items|
      invariant index <= a.Length && a[..index] == items[..index] && fresh(a)
      invariant BlobReaches(a.Length, |items|) <==> |items| <= cap || BlobReaches(cap, |items|)
    {
      if index >= a.Length {
        var size := if index > 512 then 2 * index else 1024;
        if size > INT_MAX {
          return None;
        }
        var before := a;
        a := Resize(before, size);
        assert before[..index] == before[..];
      }
      a[index] := items[index];
      assert a[..index + 1] == a[..index] + [items[index]];
    }
    r := Some((a, |items|));
  }
}
