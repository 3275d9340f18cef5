/** Bytes, fixed-width little-endian integers and the "these bytes stand at this position" relation. */
module Bytes {

  datatype Option<+T> = None | Some(value: T)

  type byte = b: int | 0 <= b < 256

  /** `bytes` occupies `data` from `pos` on; whatever precedes and follows it is arbitrary. */
  predicate At(data: seq<byte>, pos: nat, bytes: seq<byte>) {
    pos + |bytes| <= |data| && data[pos..pos + |bytes|] == bytes
  }

  lemma AtConcat(data: seq<byte>, pos: nat, a: seq<byte>, b: seq<byte>)
    ensures At(data, pos, a + b) <==> At(data, pos, a) && At(data, pos + |a|, b)
  {
    if pos + |a| + |b| <= |data| {
      assert data[pos..pos + |a + b|] == data[pos..pos + |a|] + data[pos + |a|..pos + |a| + |b|];
      if At(data, pos, a + b) {
        assert data[pos..pos + |a|] == (a + b)[..|a|] == a;
        assert data[pos + |a|..pos + |a| + |b|] == (a + b)[|a|..] == b;
      }
    }
  }

  lemma AtFits(data: seq<byte>, pos: nat, bytes: seq<byte>)
    requires At(data, pos, bytes)
    ensures pos + |bytes| <= |data|
  {
  }

  lemma AtByte(data: seq<byte>, pos: nat, b: byte, rest: seq<byte>)
    ensures At(data, pos, [b] + rest) <==> pos < |data| && data[pos] == b && At(data, pos + 1, rest)
  {
    AtConcat(data, pos, [b], rest);
  }

  /** `k` bytes of `n`, least significant first. */
  function LittleEndian(n: nat, k: nat): (e: seq<byte>)
    ensures |e| == k
  {
    if k == 0 then [] else [n % 256] + LittleEndian(n / 256, k - 1)
  }

  function Pow256(k: nat): (r: nat)
    ensures r >= 1
  {
    if k == 0 then 1 else 256 * Pow256(k - 1)
  }

  function FromLittleEndian(data: seq<byte>, pos: nat, k: nat): (n: nat)
    requires pos + k <= |data|
    ensures n < Pow256(k)
    decreases k
  {
    if k == 0 then 0 else data[pos] + 256 * FromLittleEndian(data, pos + 1, k - 1)
  }

  lemma {:induction false} LittleEndianRoundTrip(data: seq<byte>, pos: nat, n: nat, k: nat)
    requires n < Pow256(k)
    requires At(data, pos, LittleEndian(n, k))
    ensures FromLittleEndian(data, pos, k) == n
    decreases k
  {
    if k > 0 {
      AtByte(data, pos, n % 256, LittleEndian(n / 256, k - 1));
      LittleEndianRoundTrip(data, pos + 1, n / 256, k - 1);
    }
  }
}
