/** The memory-backed input stream: what each read returns and where it leaves the position.
    `None` is the end-of-stream exception. */
module Input {
  import opened Bytes
  import opened Varint

  function ReadUInt8(data: seq<byte>, pos: nat): (r: Option<(byte, nat)>)
    ensures r.Some? ==> r.value.1 == pos + 1 <= |data|
  {
    if pos < |data| then Some((data[pos], pos + 1)) else None
  }

  function ReadBytes(data: seq<byte>, pos: nat, count: nat): (r: Option<(seq<byte>, nat)>)
    ensures r.Some? ==> r.value.1 == pos + count <= |data| && |r.value.0| == count
  {
    if pos + count <= |data| then Some((data[pos..pos + count], pos + count)) else None
  }

  /** Little-endian integer of `k` bytes. */
  function ReadFixed(data: seq<byte>, pos: nat, k: nat): (r: Option<(nat, nat)>)
    ensures r.Some? ==> r.value.1 == pos + k <= |data|
  {
    if pos + k <= |data| then Some((FromLittleEndian(data, pos, k), pos + k)) else None
  }

  /** The bounds-checked loop used near the end of the buffer: at most `k` groups, all masked. */
  function Checked(data: seq<byte>, pos: nat, k: nat): (r: Option<(nat, nat)>)
    ensures r.Some? && k > 0 ==> pos < r.value.1 <= |data|
    ensures r.Some? && k == 0 ==> r.value.1 == pos
    decreases if pos < |data| then |data| - pos else 0
  {
    if k == 0 then Some((0, pos))
    else if pos >= |data| then None
    else if data[pos] < 128 then Some((data[pos] as nat, pos + 1))
    else
      match Checked(data, pos + 1, k - 1)
      case None => None
      case Some((rest, next)) => Some((data[pos] - 128 + 128 * rest, next))
  }

  /** What the loop has read so far is `low`; the groups still to come are shifted `j` times. */
  ghost predicate Reading(whole: Option<(nat, nat)>, data: seq<byte>, pos: nat, left: nat, low: nat, j: nat) {
    match (whole, Checked(data, pos, left))
    case (Some((v, end)), Some((rest, next))) => v == low + Shl7(rest, j) && end == next
    case (None, None) => true
    case _ => false
  }

  lemma ReadingStep(whole: Option<(nat, nat)>, data: seq<byte>, pos: nat, left: nat, low: nat, j: nat)
    requires left >= 1 && Reading(whole, data, pos, left, low, j)
    ensures pos >= |data| ==> whole == None
    ensures pos < |data| && data[pos] < 128 ==> whole == Some((low + Shl7(data[pos] % 128, j), pos + 1))
    ensures pos < |data| && data[pos] >= 128 ==>
              Reading(whole, data, pos + 1, left - 1, low + Shl7(data[pos] % 128, j), j + 1)
  {
    hide Shl7;
    if pos < |data| && data[pos] >= 128 {
      match Checked(data, pos + 1, left - 1)
      case None =>
      case Some((rest, _)) => Shl7Split(data[pos] % 128, rest, j);
    }
  }

  lemma {:induction false} ReadingEnd(j: nat)
    ensures Shl7(0, j) == 0
  {
    if j > 0 {
      ReadingEnd(j - 1);
    }
  }

  /** The loop itself; the result is cut to the 64-bit word. */
  method DecodeVarUInt64Checked(data: array<byte>, start: nat) returns (r: Option<(nat, nat)>)
    ensures r == match Checked(data[..], start, 10)
                 case None => None
                 case Some((v, next)) => Some((v % U64, next))
  {
    hide Checked, Shl7;
    ghost var whole := Checked(data[..], start, 10);
    var raw: nat := 0x80;
    var result: nat := 0;
    var position: nat := start;
    var groups: nat := 0;
    assert Reading(whole, data[..], start, 10, 0, 0) by { Unread(whole, data[..], start); }
    while 0x7F < raw && 7 * groups < 64
      invariant groups <= 10
      invariant raw > 0x7F ==> Reading(whole, data[..], position, 10 - groups, result, groups)
      invariant raw <= 0x7F ==> whole == Some((result, position))
      decreases 10 - groups
    {
      ReadingStep(whole, data[..], position, 10 - groups, result, groups);
      if position >= data.Length {
        return None;
      }
      raw := data[position];
      position := position + 1;
      result := result + Shl7(raw % 128, groups);
      groups := groups + 1;
    }
    if raw > 0x7F {
      NothingLeft(whole, data[..], position, result, groups);
    }
    r := Some((result % U64, position));
  }

  lemma Unread(whole: Option<(nat, nat)>, data: seq<byte>, start: nat)
    requires whole == Checked(data, start, 10)
    ensures Reading(whole, data, start, 10, 0, 0)
  {
    hide Checked;
  }

  lemma NothingLeft(whole: Option<(nat, nat)>, data: seq<byte>, pos: nat, low: nat, j: nat)
    requires Reading(whole, data, pos, 0, low, j)
    ensures whole == Some((low, pos))
  {
    ReadingEnd(j);
  }

  /** Variable-length read for an integer of `width` bytes: the unrolled decoder when its longest
      input fits, the checked loop otherwise. */
  function ReadVar(data: seq<byte>, pos: nat, width: nat): (r: Option<(nat, nat)>)
    requires width == 2 || width == 4 || width == 8
    ensures r.Some? ==> pos < r.value.1 <= |data|
  {
    var longest := if width == 2 then 3 else if width == 4 then 5 else 10;
    if pos + longest > |data| then
      match Checked(data, pos, 10)
      case None => None
      case Some((v, next)) => Some((v % Modulus(width), next))
    else if width == 2 then Some(Decode16(data, pos))
    else if width == 4 then Some(Decode32(data, pos))
    else Some(Decode64(data, pos))
  }

  function Modulus(width: nat): (m: nat)
    ensures m > 0 && Width(m)
  {
    if width == 1 then 256 else if width == 2 then U16 else if width == 4 then U32 else U64
  }

  lemma {:induction false} CheckedDecodes(data: seq<byte>, pos: nat, n: nat, k: nat)
    requires k >= 1 && At(data, pos, Encode(n)) && n < Pow128(k)
    ensures Checked(data, pos, k) == Some((n, pos + |Encode(n)|))
    decreases k
  {
    if n < 128 {
      assert data[pos] == n;
    } else {
      AtByte(data, pos, n % 128 + 128, Encode(n / 128));
      CheckedDecodes(data, pos + 1, n / 128, k - 1);
    }
  }

  /** Whichever decoder is picked, reading undoes writing and stops at the boundary. */
  lemma ReadVarRoundTrip(data: seq<byte>, pos: nat, n: nat, width: nat)
    requires width == 2 || width == 4 || width == 8
    requires n < Modulus(width) && At(data, pos, Encode(n))
    ensures ReadVar(data, pos, width) == Some((n, pos + |Encode(n)|))
  {
    Pow128Values();
    CheckedDecodes(data, pos, n, 10);
    if width == 2 && pos + 3 <= |data| {
      Decode16RoundTrip(data, pos, n);
    } else if width == 4 && pos + 5 <= |data| {
      Decode32RoundTrip(data, pos, n);
    } else if width == 8 && pos + 10 <= |data| {
      Decode64RoundTrip(data, pos, n);
    }
  }
}
