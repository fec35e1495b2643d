/** Base 128 varints as the announcement rewriter reads and writes them
    (Protocol Buffers Encoding, "Base 128 Varints"). */
module Varint {
  import opened Wrappers
  import opened ByteStrings

  const MAX_VARINT_BYTES := 10
  const LIMIT: nat := 0x1_0000_0000_0000_0000

  /** Value of the varint at the front of `d` and how many bytes it takes, when it
      ends within `room` bytes. */
  function Read(d: Bytes, room: nat): (r: Option<(nat, nat)>)
    ensures r.Some? ==> 1 <= r.value.1 <= |d| && r.value.1 <= room
  {
    if room == 0 || d == [] then None
    else if d[0] < 128 then Some((d[0] as nat, 1))
    else match Read(d[1..], room - 1)
      case None => None
      case Some((v, n)) => Some((d[0] as nat - 128 + 128 * v, n + 1))
  }

  /** The shortest encoding. */
  function Encode(v: nat): (e: Bytes)
    ensures e != []
  {
    if v < 128 then [v as byte] else [(v % 128 + 128) as byte] + Encode(v / 128)
  }

  function Power128(k: nat): nat {
    if k == 0 then 1 else 128 * Power128(k - 1)
  }

  /** Only the bytes of the varint itself matter. */
  lemma {:induction false} ReadLocal(d: Bytes, room: nat, tail: Bytes)
    requires Read(d, room).Some?
    ensures Read(d[..Read(d, room).value.1] + tail, room) == Read(d, room)
  {
    var n := Read(d, room).value.1;
    if d[0] >= 128 {
      ReadLocal(d[1..], room - 1, tail);
      assert (d[..n] + tail)[1..] == d[1..][..n - 1] + tail;
    }
  }

  lemma {:induction false} ReadEncodeWithin(v: nat, room: nat, tail: Bytes)
    requires room > 0 && v < Power128(room)
    ensures Read(Encode(v) + tail, room) == Some((v, |Encode(v)|))
  {
    if v >= 128 {
      assert v / 128 < Power128(room - 1);
      ReadEncodeWithin(v / 128, room - 1, tail);
      assert (Encode(v) + tail)[1..] == Encode(v / 128) + tail;
    }
  }

  /** Reading inverts writing for every value below 2^64, whatever follows. */
  lemma ReadEncode(v: nat, tail: Bytes)
    requires v < LIMIT
    ensures Read(Encode(v) + tail, MAX_VARINT_BYTES) == Some((v, |Encode(v)|))
  {
    assert Power128(10) == 128 * Power128(9) && Power128(9) == 128 * Power128(8) && Power128(8) == 128 * Power128(7);
    assert Power128(7) == 128 * Power128(6) && Power128(6) == 128 * Power128(5) && Power128(5) == 128 * Power128(4);
    assert Power128(4) == 128 * Power128(3) && Power128(3) == 128 * 128 * 128;
    ReadEncodeWithin(v, MAX_VARINT_BYTES, tail);
  }

  /** No accepted spelling of a value is shorter than the written one, and only the
      written one has its length and value. */
  lemma {:induction false} EncodeShortest(d: Bytes, room: nat)
    requires Read(d, room).Some?
    ensures var (v, n) := Read(d, room).value;
            |Encode(v)| <= n && (|Encode(v)| == n ==> d[..n] == Encode(v))
  {
    var (v, n) := Read(d, room).value;
    if d[0] >= 128 {
      EncodeShortest(d[1..], room - 1);
      var (w, m) := Read(d[1..], room - 1).value;
      assert d[..n] == [d[0]] + d[1..][..m];
      if v >= 128 {
        assert v / 128 == w && v % 128 == d[0] as nat - 128;
      }
    }
  }

  /** The digits of a value to the base 128, the least first. */
  function Digit(v: nat, k: nat): nat {
    if k == 0 then v % 128 else Digit(v / 128, k - 1)
  }

  /** A varint ends at the first byte below 128, which must be among the allowed ones, and
      the low seven bits of its bytes are the digits of the value. */
  lemma {:induction false} ReadDigits(d: Bytes, room: nat)
    ensures Read(d, room).Some? <==> exists i :: 0 <= i < |d| && i < room && d[i] < 128
    ensures Read(d, room).Some? ==>
              var (v, n) := Read(d, room).value;
              && d[n - 1] < 128 && (forall i :: 0 <= i < n - 1 ==> d[i] >= 128)
              && v < Power128(n)
              && forall k: nat :: k < n ==> Digit(v, k) == d[k] as nat % 128
  {
    if room > 0 && d != [] && d[0] >= 128 {
      ReadDigits(d[1..], room - 1);
      if i :| 0 <= i < |d| && i < room && d[i] < 128 {
        assert d[1..][i - 1] == d[i];
      }
      if Read(d, room).Some? {
        var (v, n) := Read(d, room).value;
        var (w, m) := Read(d[1..], room - 1).value;
        assert v / 128 == w;
        forall k: nat | k < n ensures Digit(v, k) == d[k] as nat % 128 {
          if k > 0 {
            assert d[1..][k - 1] == d[k];
          }
        }
      }
    }
  }

  /** What the loop still has to add to a partial value. */
  ghost function Finished(value: nat, scale: nat, offset: nat, rest: Option<(nat, nat)>): Option<(nat, nat)> {
    match rest
    case None => None
    case Some((v, n)) => Some((value + scale * v, offset + n))
  }

  lemma ReadStep(value: nat, scale: nat, offset: nat, rest: Bytes, room: nat)
    requires room > 0 && rest != []
    ensures Finished(value, scale, offset, Read(rest, room))
            == if rest[0] < 128 then Some((value + scale * (rest[0] as nat % 128), offset + 1))
               else Finished(value + scale * (rest[0] as nat % 128), scale * 128, offset + 1, Read(rest[1..], room - 1))
  {
    var b := rest[0] as nat;
    if b >= 128 && Read(rest[1..], room - 1).Some? {
      var v := Read(rest[1..], room - 1).value.0;
      Regroup(value, scale, b % 128, v);
    }
  }

  lemma Regroup(value: nat, scale: nat, low: nat, v: nat)
    ensures value + scale * (low + 128 * v) == (value + scale * low) + (scale * 128) * v
  {
  }

  /** The reading loop: the low seven bits of each byte are added at a growing scale. */
  method ReadVarint(data: Bytes, start: nat) returns (r: Option<(nat, nat)>)
    requires start <= |data|
    ensures r == match Read(data[start..], MAX_VARINT_BYTES)
                 case None => None
                 case Some((v, n)) => Some((v, start + n))
  {
    var value: nat, scale: nat, position := 0, 1, start;
    for offset := 0 to MAX_VARINT_BYTES
      invariant position == start + offset <= |data|
      invariant Finished(value, scale, offset, Read(data[position..], MAX_VARINT_BYTES - offset))
                == Finished(0, 1, 0, Read(data[start..], MAX_VARINT_BYTES))
    {
      if position >= |data| {
        return None;
      }
      ReadStep(value, scale, offset, data[position..], MAX_VARINT_BYTES - offset);
      assert data[position..][1..] == data[position + 1..];
      var b := data[position] as nat;
      position := position + 1;
      value := value + scale * (b % 128);
      if b < 128 {
        return Some((value, position));
      }
      scale := scale * 128;
    }
    r := None;
  }

  /** The writing loop. */
  method EncodeVarint(value: nat) returns (r: Option<Bytes>)
    ensures r == if value < LIMIT then Some(Encode(value)) else None
  {
    if value >= LIMIT {
      return None;
    }
    var left, encoded := value, [];
    while left >= 128
      invariant encoded + Encode(left) == Encode(value)
    {
      assert Encode(left) == [(left % 128 + 128) as byte] + Encode(left / 128);
      encoded := encoded + [(left % 128 + 128) as byte];
      left := left / 128;
    }
    r := Some(encoded + [left as byte]);
  }
}
