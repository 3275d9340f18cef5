/** Variable-length integers: one specification, and every encoder, counter and decoder of the
    two implementations proved against it. Bit operations are written as the arithmetic they
    perform: `x & 0x7F` is `x % 128`, `x | 0x80` cast to a byte is `x % 128 + 128`, `x >> 7` is
    `x / 128`, and `|` of operands without common bits is `+`. */
module Varint {
  import opened Bytes

  const U16: nat := 0x1_0000
  const U32: nat := 0x1_0000_0000
  const U64: nat := 0x1_0000_0000_0000_0000

  /** Seven bits per byte, least significant group first, high bit set on all but the last. */
  function Encode(n: nat): (e: seq<byte>)
    ensures |e| >= 1
  {
    if n < 128 then [n] else [n % 128 + 128] + Encode(n / 128)
  }

  function Pow128(k: nat): (r: nat)
    ensures r >= 1
  {
    if k == 0 then 1 else 128 * Pow128(k - 1)
  }

  lemma Pow128Values()
    ensures Pow128(1) == 0x80 && Pow128(2) == 0x4000 && Pow128(3) == 0x20_0000
    ensures Pow128(4) == 0x1000_0000 && Pow128(5) == 0x8_0000_0000
    ensures Pow128(6) == 0x400_0000_0000 && Pow128(7) == 0x2_0000_0000_0000
    ensures Pow128(8) == 0x100_0000_0000_0000 && Pow128(9) == 0x8000_0000_0000_0000
    ensures Pow128(10) >= U64
  {
    assert Pow128(1) == 0x80 && Pow128(2) == 0x4000;
    assert Pow128(3) == 0x20_0000 && Pow128(4) == 0x1000_0000;
    assert Pow128(5) == 0x8_0000_0000 && Pow128(6) == 0x400_0000_0000;
    assert Pow128(7) == 0x2_0000_0000_0000 && Pow128(8) == 0x100_0000_0000_0000;
  }

  lemma {:induction false} EncodedLength(n: nat, k: nat)
    requires k >= 1
    ensures |Encode(n)| <= k <==> n < Pow128(k)
    decreases k
  {
    if k > 1 && n >= 128 {
      EncodedLength(n / 128, k - 1);
    } else {
      assert n < 128 ==> Pow128(k) >= 128 * Pow128(k - 1);
    }
  }

  /** Encodings of different integers never share a prefix relation: the encoding is
      self-delimiting. */
  lemma {:induction false} EncodePrefixFree(m: nat, n: nat, x: seq<byte>, y: seq<byte>)
    requires Encode(m) + x == Encode(n) + y
    ensures m == n && x == y
    decreases m
  {
    var a, b := Encode(m) + x, Encode(n) + y;
    assert a[0] == Encode(m)[0] && b[0] == Encode(n)[0];
    if m >= 128 {
      assert n >= 128;
      assert a[1..] == Encode(m / 128) + x;
      assert b[1..] == Encode(n / 128) + y;
      EncodePrefixFree(m / 128, n / 128, x, y);
    } else {
      assert a[1..] == x && b[1..] == y;
    }
  }

  // ------------------------------------------------------------------ lengths

  function VarUInt16Length(value: nat): nat {
    if value < 0x80 then 1 else if value < 0x4000 then 2 else 3
  }

  function VarUInt32Length(value: nat): nat {
    if value < 0x80 then 1
    else if value < 0x4000 then 2
    else if value < 0x20_0000 then 3
    else if value < 0x1000_0000 then 4
    else 5
  }

  function VarUInt64Length(value: nat): nat {
    if value < 0x80 then 1
    else if value < 0x4000 then 2
    else if value < 0x20_0000 then 3
    else if value < 0x1000_0000 then 4
    else if value < 0x8_0000_0000 then 5
    else if value < 0x400_0000_0000 then 6
    else if value < 0x2_0000_0000_0000 then 7
    else if value < 0x100_0000_0000_0000 then 8
    else if value < 0x8000_0000_0000_0000 then 9
    else 10
  }

  lemma LengthIsThresholds(n: nat)
    requires n < U64
    ensures |Encode(n)| == VarUInt64Length(n)
    ensures n < U32 ==> |Encode(n)| == VarUInt32Length(n)
    ensures n < U16 ==> |Encode(n)| == VarUInt16Length(n)
  {
    Pow128Values();
    forall k | 1 <= k <= 10 ensures |Encode(n)| <= k <==> n < Pow128(k) { EncodedLength(n, k); }
    assert |Encode(n)| <= 10;
  }

  /** The counting stream's recursion: `n` bytes so far, `rest` is what is left after shifting;
      the specialisation for the widest position adds the maximum without looking. */
  function CountedLength(n: nat, maxBytes: nat, rest: nat): nat
    requires 1 <= n <= maxBytes
    decreases maxBytes - n
  {
    if n == maxBytes then maxBytes
    else if rest != 0 then CountedLength(n + 1, maxBytes, rest / 128)
    else n
  }

  lemma {:induction false} CountedLengthIsLength(n: nat, maxBytes: nat, value: nat)
    requires 1 <= n <= maxBytes
    requires value < Pow128(maxBytes - n + 1)
    ensures CountedLength(n, maxBytes, value / 128) == n - 1 + |Encode(value)|
    decreases maxBytes - n
  {
    if n < maxBytes && value >= 128 {
      CountedLengthIsLength(n + 1, maxBytes, value / 128);
    }
  }

  // ----------------------------------------------------------------- encoders

  /** A half-finished in-place encoding: `index` is where the next byte goes, `value` is what is
      still to be written of `whole`, and nothing outside the encoding has changed. */
  ghost predicate Encoding(now: seq<byte>, before: seq<byte>, start: nat, index: nat, value: nat, whole: nat) {
    && |now| == |before|
    && start <= index
    && index + |Encode(value)| <= |now|
    && now[..start] == before[..start]
    && now[start..index] + Encode(value) == Encode(whole)
    && now[index..] == before[index..]
  }

  /** What an encoder leaves behind. */
  ghost predicate Encoded(now: seq<byte>, before: seq<byte>, start: nat, next: nat, whole: nat) {
    && |now| == |before|
    && next == start + |Encode(whole)| <= |now|
    && now[..start] == before[..start]
    && now[start..next] == Encode(whole)
    && now[next..] == before[next..]
  }

  lemma GroupWritten(now: seq<byte>, before: seq<byte>, start: nat, index: nat, value: nat, whole: nat)
    requires Encoding(now, before, start, index, value, whole)
    requires value >= 128
    ensures index + 1 < |now|
    ensures Encoding(now[index := value % 128 + 128], before, start, index + 1, value / 128, whole)
  {
    var next := now[index := value % 128 + 128];
    assert next[start..index + 1] == now[start..index] + [value % 128 + 128];
    assert next[start..index + 1] + Encode(value / 128)
        == now[start..index] + ([value % 128 + 128] + Encode(value / 128));
    assert next[..start] == now[..start];
    assert next[index + 1..] == now[index + 1..] == now[index..][1..] == before[index..][1..] == before[index + 1..];
  }

  lemma LastGroupWritten(now: seq<byte>, before: seq<byte>, start: nat, index: nat, value: nat, whole: nat)
    requires Encoding(now, before, start, index, value, whole)
    requires value < 128
    ensures Encoded(now[index := value], before, start, index + 1, whole)
  {
    var next := now[index := value];
    assert next[start..index + 1] == now[start..index] + [value];
    assert |Encode(whole)| == index + 1 - start;
    assert next[..start] == now[..start];
    assert next[index + 1..] == now[index + 1..] == now[index..][1..] == before[index..][1..] == before[index + 1..];
  }

  /** Writes one continued group; the unrolled encoders below are chains of these. */
  method WriteGroup(data: array<byte>, index: nat, value: nat,
                    ghost before: seq<byte>, ghost start: nat, ghost whole: nat)
    returns (next: nat, rest: nat)
    requires value >= 128
    requires Encoding(data[..], before, start, index, value, whole)
    modifies data
    ensures next == index + 1 && rest == value / 128
    ensures Encoding(data[..], before, start, next, rest, whole)
  {
    GroupWritten(data[..], before, start, index, value, whole);
    ghost var was: seq<byte> := data[..];
    data[index] := value % 128 + 128;
    assert data[..] == was[index := value % 128 + 128];
    next, rest := index + 1, value / 128;
  }

  method WriteLastGroup(data: array<byte>, index: nat, value: nat,
                        ghost before: seq<byte>, ghost start: nat, ghost whole: nat)
    returns (next: nat)
    requires value < 128
    requires Encoding(data[..], before, start, index, value, whole)
    modifies data
    ensures Encoded(data[..], before, start, next, whole)
  {
    LastGroupWritten(data[..], before, start, index, value, whole);
    ghost var was: seq<byte> := data[..];
    data[index] := value;
    assert data[..] == was[index := value];
    next := index + 1;
  }

  method EncodeVarUInt16(data: array<byte>, value: nat, index: nat) returns (next: nat)
    requires value < U16
    requires index + |Encode(value)| <= data.Length
    modifies data
    ensures Encoded(data[..], old(data[..]), index, next, value)
  {
    ghost var before := data[..];
    var i, v := index, value;
    assert Encoding(data[..], before, index, i, v, value);
    if v >= 0x80 {
      i, v := WriteGroup(data, i, v, before, index, value);
      if v >= 0x80 {
        i, v := WriteGroup(data, i, v, before, index, value);
      }
    }
    next := WriteLastGroup(data, i, v, before, index, value);
  }

  method EncodeVarUInt32(data: array<byte>, value: nat, index: nat) returns (next: nat)
    requires value < U32
    requires index + |Encode(value)| <= data.Length
    modifies data
    ensures Encoded(data[..], old(data[..]), index, next, value)
  {
    ghost var before := data[..];
    var i, v := index, value;
    assert Encoding(data[..], before, index, i, v, value);
    if v >= 0x80 {
      i, v := WriteGroup(data, i, v, before, index, value);
      if v >= 0x80 {
        i, v := WriteGroup(data, i, v, before, index, value);
        if v >= 0x80 {
          i, v := WriteGroup(data, i, v, before, index, value);
          if v >= 0x80 {
            i, v := WriteGroup(data, i, v, before, index, value);
          }
        }
      }
    }
    next := WriteLastGroup(data, i, v, before, index, value);
  }

  method EncodeVarUInt64(data: array<byte>, value: nat, index: nat) returns (next: nat)
    requires value < U64
    requires index + |Encode(value)| <= data.Length
    modifies data
    ensures Encoded(data[..], old(data[..]), index, next, value)
  {
    ghost var before := data[..];
    var i, v := index, value;
    assert Encoding(data[..], before, index, i, v, value);
    if v >= 0x80 {
      i, v := WriteGroup(data, i, v, before, index, value);
      if v >= 0x80 {
        i, v := WriteGroup(data, i, v, before, index, value);
        if v >= 0x80 {
          i, v := WriteGroup(data, i, v, before, index, value);
          if v >= 0x80 {
            i, v := WriteGroup(data, i, v, before, index, value);
            if v >= 0x80 {
              i, v := WriteGroup(data, i, v, before, index, value);
              if v >= 0x80 {
                i, v := WriteGroup(data, i, v, before, index, value);
                if v >= 0x80 {
                  i, v := WriteGroup(data, i, v, before, index, value);
                  if v >= 0x80 {
                    i, v := WriteGroup(data, i, v, before, index, value);
                    if v >= 0x80 {
                      i, v := WriteGroup(data, i, v, before, index, value);
                    }
                  }
                }
              }
            }
          }
        }
      }
    }
    next := WriteLastGroup(data, i, v, before, index, value);
  }

  // ----------------------------------------------------------------- decoders

  /** At most `k` groups; the last one that may be read counts as a whole byte, continuation flag
      included. The value read and the position after it. */
  function Groups(data: seq<byte>, pos: nat, k: nat): (r: (nat, nat))
    requires k >= 1 && pos + k <= |data|
    ensures pos < r.1 <= pos + k
    decreases |data| - pos
  {
    var b := data[pos];
    if b < 128 || k == 1 then (b as nat, pos + 1)
    else
      var (rest, next) := Groups(data, pos + 1, k - 1);
      (b - 128 + 128 * rest, next)
  }

  lemma {:induction false} GroupsBound(data: seq<byte>, pos: nat, k: nat)
    requires k >= 1 && pos + k <= |data|
    ensures Groups(data, pos, k).0 < 2 * Pow128(k)
    decreases k
  {
    if data[pos] >= 128 && k > 1 {
      GroupsBound(data, pos + 1, k - 1);
    } else {
      assert Pow128(k) >= 128;
    }
  }

  function Decode16(data: seq<byte>, pos: nat): (nat, nat)
    requires pos + 3 <= |data|
  {
    var (v, next) := Groups(data, pos, 3);
    (v % U16, next)
  }

  function Decode32(data: seq<byte>, pos: nat): (nat, nat)
    requires pos + 5 <= |data|
  {
    var (v, next) := Groups(data, pos, 5);
    (v % U32, next)
  }

  /** Nine groups, the ninth whole, and one more byte passed over if the ninth is flagged. */
  function Decode64(data: seq<byte>, pos: nat): (nat, nat)
    requires pos + 10 <= |data|
  {
    var (v, next) := Groups(data, pos, 9);
    (v, if next == pos + 9 && data[pos + 8] >= 128 then next + 1 else next)
  }

  /** Covers all three widths: the value may exceed `k` groups by one bit, which then sits in the
      continuation flag of the last group read. */
  lemma {:induction false} GroupsDecode(data: seq<byte>, pos: nat, n: nat, k: nat)
    requires k >= 1 && pos + k <= |data|
    requires At(data, pos, Encode(n))
    requires n < 2 * Pow128(k)
    ensures Groups(data, pos, k) == (n, pos + (if |Encode(n)| <= k then |Encode(n)| else k))
    decreases k
  {
    hide At;
    if n < 128 {
      assert [n] + [] == Encode(n);
      AtByte(data, pos, n, []);
    } else {
      AtByte(data, pos, n % 128 + 128, Encode(n / 128));
      if k == 1 {
        assert n < 256 && |Encode(n / 128)| == 1;
      } else {
        GroupsDecode(data, pos + 1, n / 128, k - 1);
      }
    }
  }

  lemma {:induction false} GroupBytes(data: seq<byte>, pos: nat, n: nat, i: nat)
    requires At(data, pos, Encode(n))
    requires i + 1 < |Encode(n)|
    ensures data[pos + i] >= 128
    decreases i
  {
    AtByte(data, pos, n % 128 + 128, Encode(n / 128));
    if i > 0 {
      GroupBytes(data, pos + 1, n / 128, i - 1);
    }
  }

  lemma {:induction false} LastGroupByte(data: seq<byte>, pos: nat, n: nat)
    requires At(data, pos, Encode(n))
    ensures data[pos + |Encode(n)| - 1] < 128
    decreases n
  {
    if n >= 128 {
      AtByte(data, pos, n % 128 + 128, Encode(n / 128));
      LastGroupByte(data, pos + 1, n / 128);
    }
  }

  lemma Decode16RoundTrip(data: seq<byte>, pos: nat, n: nat)
    requires pos + 3 <= |data| && n < U16 && At(data, pos, Encode(n))
    ensures Decode16(data, pos) == (n, pos + |Encode(n)|)
  {
    Pow128Values();
    GroupsDecode(data, pos, n, 3);
    EncodedLength(n, 3);
  }

  lemma Decode32RoundTrip(data: seq<byte>, pos: nat, n: nat)
    requires pos + 5 <= |data| && n < U32 && At(data, pos, Encode(n))
    ensures Decode32(data, pos) == (n, pos + |Encode(n)|)
  {
    Pow128Values();
    GroupsDecode(data, pos, n, 5);
    EncodedLength(n, 5);
  }

  lemma Decode64RoundTrip(data: seq<byte>, pos: nat, n: nat)
    requires pos + 10 <= |data| && n < U64 && At(data, pos, Encode(n))
    ensures Decode64(data, pos) == (n, pos + |Encode(n)|)
  {
    Pow128Values();
    GroupsDecode(data, pos, n, 9);
    EncodedLength(n, 9);
    EncodedLength(n, 10);
    if |Encode(n)| == 10 {
      GroupBytes(data, pos, n, 8);
    } else if |Encode(n)| == 9 {
      LastGroupByte(data, pos, n);
    }
  }

  /** `x << 7 * k`. */
  function Shl7(x: nat, k: nat): nat {
    if k == 0 then x else 128 * Shl7(x, k - 1)
  }

  lemma {:induction false} Shl7Split(low: nat, high: nat, k: nat)
    ensures Shl7(low + 128 * high, k) == Shl7(low, k) + Shl7(high, k + 1)
  {
    if k > 0 {
      Shl7Split(low, high, k - 1);
    }
  }

  /** Bits below the shift and seven more bits at it stay below the next shift: the operands of
      `|` have no bit in common. */
  lemma {:induction false} Shl7Room(bits: nat, k: nat)
    requires bits < 128
    ensures Shl7(bits, k) + Shl7(1, k) <= Shl7(1, k + 1)
  {
    if k > 0 {
      Shl7Room(bits, k - 1);
    }
  }

  lemma Shl7Values(x: nat)
    ensures Shl7(x, 1) == 0x80 * x && Shl7(x, 2) == 0x4000 * x && Shl7(x, 3) == 0x20_0000 * x
    ensures Shl7(x, 4) == 0x1000_0000 * x && Shl7(x, 5) == 0x8_0000_0000 * x
  {
    assert Shl7(x, 1) == 0x80 * x;
    assert Shl7(x, 2) == 128 * Shl7(x, 1);
    assert Shl7(x, 3) == 128 * Shl7(x, 2);
    assert Shl7(x, 4) == 128 * Shl7(x, 3);
    assert Shl7(x, 5) == 128 * Shl7(x, 4);
  }

  /** What has been read so far is `low`; the groups still to come are shifted `j` times. */
  ghost predicate Continues(data: seq<byte>, pos: nat, k: nat, whole: (nat, nat), low: nat, j: nat)
    requires k >= 1 && pos + k <= |data|
  {
    && low < Shl7(1, j)
    && whole.0 == low + Shl7(Groups(data, pos, k).0, j)
    && whole.1 == Groups(data, pos, k).1
  }

  lemma FirstGroup(data: seq<byte>, pos: nat, k: nat)
    requires k > 1 && pos + k <= |data|
    ensures data[pos] < 128 ==> Groups(data, pos, k) == (data[pos] as nat, pos + 1)
    ensures data[pos] >= 128 ==> Continues(data, pos + 1, k - 1, Groups(data, pos, k), data[pos] % 128, 1)
  {
    Shl7Values(1);
    if data[pos] >= 128 {
      Shl7Values(Groups(data, pos + 1, k - 1).0);
    }
  }

  lemma NextGroup(data: seq<byte>, pos: nat, k: nat, whole: (nat, nat), low: nat, j: nat)
    requires k > 1 && pos + k <= |data|
    requires Continues(data, pos, k, whole, low, j)
    ensures low + Shl7(data[pos] % 128, j) < Shl7(1, j + 1)
    ensures data[pos] < 128 ==> whole == (low + Shl7(data[pos] % 128, j), pos + 1)
    ensures data[pos] >= 128 ==>
              Continues(data, pos + 1, k - 1, whole, low + Shl7(data[pos] % 128, j), j + 1)
  {
    Shl7Room(data[pos] % 128, j);
    if data[pos] >= 128 {
      Shl7Split(data[pos] % 128, Groups(data, pos + 1, k - 1).0, j);
    }
  }

  /** Reads one masked group; the unrolled decoders below are chains of these. */
  method ReadGroup(data: array<byte>, index: nat, ghost k: nat, low: nat, j: nat, ghost whole: (nat, nat))
    returns (result: nat, raw: nat, next: nat)
    requires k > 1 && index + k <= data.Length
    requires Continues(data[..], index, k, whole, low, j)
    ensures raw == data[index] && next == index + 1
    ensures result < Shl7(1, j + 1)
    ensures raw < 128 ==> whole == (result, next)
    ensures raw >= 128 ==> Continues(data[..], next, k - 1, whole, result, j + 1)
  {
    NextGroup(data[..], index, k, whole, low, j);
    raw, next := data[index], index + 1;
    result := low + Shl7(raw % 128, j);
  }

  lemma LastGroup32(low: nat, raw: nat)
    requires low < Shl7(1, 4) && raw < 256
    ensures (low + Shl7(raw, 4)) % U32 == low + Shl7(raw, 4) % U32 < U32
  {
    Shl7Values(1);
    Shl7Values(raw);
    var high, kept := raw / 16, raw % 16 * 0x1000_0000;
    assert Shl7(raw, 4) == high * U32 + kept;
    RemainderOf(high, kept);
    RemainderOf(high, low + kept);
  }

  lemma RemainderOf(q: nat, r: nat)
    requires r < U32
    ensures (q * U32 + r) % U32 == r
  {
  }

  /** The fifth byte is shifted whole; the shift drops what does not fit. */
  method ReadLastGroup32(data: array<byte>, index: nat, low: nat, ghost whole: (nat, nat))
    returns (result: nat, next: nat)
    requires index + 1 <= data.Length
    requires Continues(data[..], index, 1, whole, low, 4)
    ensures (result, next) == (whole.0 % U32, whole.1)
  {
    var raw: nat := data[index];
    LastGroup32(low, raw);
    result, next := low + Shl7(raw, 4) % U32, index + 1;
  }

  lemma LastWhole(data: seq<byte>, p: nat, j: nat, low: nat, whole: (nat, nat))
    requires p + 1 <= |data| && Continues(data, p, 1, whole, low, j)
    ensures whole == (low + Shl7(data[p], j), p + 1)
  {
  }

  method DecodeVarUInt16(data: array<byte>, index: nat) returns (result: nat, next: nat)
    requires index + 3 <= data.Length
    ensures (result, next) == Decode16(data[..], index)
  {
    hide Groups, Continues, Shl7;
    ghost var whole := Groups(data[..], index, 3);
    var raw: nat := data[index];
    result, next := raw, index + 1;
    FirstGroup(data[..], index, 3);
    Shl7Values(1);
    if raw >= 0x80 {
      result, raw, next := ReadGroup(data, next, 2, result % 128, 1, whole);
      if raw >= 0x80 {
        LastWhole(data[..], next, 2, result, whole);
        raw := data[next];
        next := next + 1;
        result := result + Shl7(raw, 2);
      }
    }
    result := result % U16;
  }

  method DecodeVarUInt32(data: array<byte>, index: nat) returns (result: nat, next: nat)
    requires index + 5 <= data.Length
    ensures (result, next) == Decode32(data[..], index)
  {
    hide Groups, Continues, Shl7;
    ghost var whole := Groups(data[..], index, 5);
    var raw: nat := data[index];
    result, next := raw, index + 1;
    FirstGroup(data[..], index, 5);
    if raw >= 0x80 {
      result, raw, next := ReadGroup(data, next, 4, result % 128, 1, whole);
      if raw >= 0x80 {
        result, raw, next := ReadGroup(data, next, 3, result, 2, whole);
        if raw >= 0x80 {
          result, raw, next := ReadGroup(data, next, 2, result, 3, whole);
          if raw >= 0x80 {
            result, next := ReadLastGroup32(data, next, result, whole);
          }
        }
      }
    }
    Shl7Values(1);
  }

  method DecodeVarUInt64(data: array<byte>, index: nat) returns (result: nat, next: nat)
    requires index + 10 <= data.Length
    ensures (result, next) == Decode64(data[..], index)
  {
    hide Groups, Continues, Shl7;
    ghost var whole := Groups(data[..], index, 9);
    var raw: nat := data[index];
    result, next := raw, index + 1;
    FirstGroup(data[..], index, 9);
    if raw >= 0x80 {
      result, raw, next := ReadGroup(data, next, 8, result % 128, 1, whole);
      if raw >= 0x80 {
        result, raw, next := ReadGroup(data, next, 7, result, 2, whole);
        if raw >= 0x80 {
          result, raw, next := ReadGroup(data, next, 6, result, 3, whole);
          if raw >= 0x80 {
            result, raw, next := ReadGroup(data, next, 5, result, 4, whole);
            if raw >= 0x80 {
              result, raw, next := ReadGroup(data, next, 4, result, 5, whole);
              if raw >= 0x80 {
                result, raw, next := ReadGroup(data, next, 3, result, 6, whole);
                if raw >= 0x80 {
                  result, raw, next := ReadGroup(data, next, 2, result, 7, whole);
                  if raw >= 0x80 {
                    LastWhole(data[..], next, 8, result, whole);
                    raw := data[next];
                    next := next + 1;
                    result := result + Shl7(raw, 8);
                    if raw >= 0x80 {
                      next := next + 1;
                    }
                  }
                }
              }
            }
          }
        }
      }
    }
  }

  // ------------------------------------------------------------------- zigzag

  /** `x ^ m` for a mask that is all zeros (0) or all ones (-1). */
  function XorMask(x: int, mask: int): int
    requires mask == 0 || mask == -1
  {
    if mask == 0 then x else -x - 1
  }

  /** The low bits of `x` as an unsigned integer below `modulus`. */
  function Unsigned(x: int, modulus: nat): (u: nat)
    requires modulus > 0
    ensures u < modulus
  {
    x % modulus
  }

  /** The signed integer whose two's complement pattern is `u`. */
  function Signed(u: nat, modulus: nat): int
    requires modulus > 0
  {
    if 2 * u < modulus then u else u - modulus
  }

  /** `(value << 1) ^ (value >> (bits - 1))`, every step cut to the width. */
  function EncodeZigzag(value: int, modulus: nat): (u: nat)
    requires modulus > 0
    ensures u < modulus
  {
    Unsigned(XorMask(Unsigned(2 * value, modulus), if value < 0 then -1 else 0), modulus)
  }

  /** `(value >> 1) ^ -(value & 1)`. */
  function DecodeZigzag(u: nat, modulus: nat): int
    requires modulus > 0
  {
    Signed(Unsigned(XorMask(u / 2, -(u % 2)), modulus), modulus)
  }

  predicate Width(modulus: nat) { modulus == 256 || modulus == U16 || modulus == U32 || modulus == U64 }

  lemma SignedRoundTrip(value: int, modulus: nat)
    requires Width(modulus)
    requires -(modulus as int) <= 2 * value < modulus
    ensures Signed(Unsigned(value, modulus), modulus) == value
  {
    WrapOnce(value, modulus);
  }

  lemma WrapOnce(x: int, modulus: nat)
    requires Width(modulus)
    requires -(modulus as int) <= x < modulus
    ensures Unsigned(x, modulus) == if x >= 0 then x else x + modulus
  {
    if modulus == 256 {
    } else if modulus == U16 {
    } else if modulus == U32 {
    } else {
    }
  }

  /** Zigzag is a bijection that numbers 0, -1, 1, -2, ... in order. */
  lemma {:induction false} ZigzagRoundTrip(value: int, modulus: nat)
    requires Width(modulus)
    requires -(modulus as int) <= 2 * value < modulus
    ensures EncodeZigzag(value, modulus) == if value >= 0 then 2 * value else -2 * value - 1
    ensures DecodeZigzag(EncodeZigzag(value, modulus), modulus) == value
  {
    WrapOnce(2 * value, modulus);
    var u := EncodeZigzag(value, modulus);
    if value < 0 {
      WrapOnce(-(2 * value + modulus) - 1, modulus);
      var half: int := u / 2;
      WrapOnce(-half - 1, modulus);
    } else {
      WrapOnce(u / 2, modulus);
    }
  }
}
