/**
  Multiformats unsigned varint as `unsigned_varint::{encode,decode}::u64` work:
  seven bits a byte, least significant first, at most ten bytes, into a 64-bit
  accumulator.  The tenth byte is shifted by 63, so only its lowest bit is kept.
 */
module Varint {
  import opened Wrappers

  datatype VarintError = Insufficient | Overflow | NotMinimal

  function Encode(n: nat): (b: Bytes)
    ensures b != []
  {
    if n < 128 then [n] else [n % 128 + 128] + Encode(n / 128)
  }

  /** Reads byte number `i` of the varint and all that follow it. */
  function Read(buf: Bytes, i: nat): (r: Result<(nat, Bytes), VarintError>)
    requires i <= 9
    decreases 9 - i
  {
    if buf == [] then Err(Insufficient)
    else if buf[0] < 128 then
      if buf[0] == 0 && i > 0 then Err(NotMinimal)
      else Ok((if i == 9 then buf[0] % 2 else buf[0], buf[1..]))
    else if i == 9 then Err(Overflow)
    else
      var (high, rest) :- Read(buf[1..], i + 1);
      Ok((buf[0] - 128 + 128 * high, rest))
  }

  function Decode(buf: Bytes): (r: Result<(nat, Bytes), VarintError>) {
    Read(buf, 0)
  }

  /** What the bits still free from byte `i` on can hold. */
  function Limit(i: nat): (n: nat)
    requires i <= 9
    ensures n >= 2 && (i < 9 ==> n >= 256)
    decreases 9 - i
  {
    if i == 9 then 2 else 128 * Limit(i + 1)
  }

  lemma SixtyFourBits()
    ensures Limit(0) == 0x1_0000_0000_0000_0000
  {
    assert Limit(7) == 0x8000;
    assert Limit(5) == 0x2000_0000;
    assert Limit(3) == 0x800_0000_0000;
    assert Limit(1) == 0x200_0000_0000_0000;
  }

  lemma {:induction false} ReadEncode(n: nat, rest: Bytes, i: nat)
    requires i <= 9
    requires n < Limit(i)
    requires i > 0 ==> n > 0
    ensures Read(Encode(n) + rest, i) == Ok((n, rest))
    decreases 9 - i
  {
    var buf := Encode(n) + rest;
    if n < 128 {
      assert buf[1..] == rest;
    } else {
      ReadEncode(n / 128, rest, i + 1);
      assert buf[1..] == Encode(n / 128) + rest;
    }
  }

  /** Seven bits a byte, the low ones first, as in the multiformats examples. */
  lemma EncodeExamples()
    ensures Encode(1) == [0x01] && Encode(127) == [0x7f] && Encode(128) == [0x80, 0x01]
    ensures Encode(255) == [0xff, 0x01] && Encode(300) == [0xac, 0x02] && Encode(16384) == [0x80, 0x80, 0x01]
  {}

  lemma DecodeEncode(n: nat, rest: Bytes)
    requires n < 0x1_0000_0000_0000_0000
    ensures Decode(Encode(n) + rest) == Ok((n, rest))
  {
    SixtyFourBits();
    ReadEncode(n, rest, 0);
  }

  /** Ten bytes whose last one holds more than the single bit that fits. */
  predicate Spills(buf: Bytes, i: nat)
    requires i <= 9
  {
    |buf| > 9 - i && 2 <= buf[9 - i] < 128 && forall j :: 0 <= j < 9 - i ==> buf[j] >= 128
  }

  lemma {:induction false} EncodeNext(b: byte, high: nat)
    requires b >= 128 && high > 0
    ensures Encode(b - 128 + 128 * high) == [b] + Encode(high)
  {
    var n := b - 128 + 128 * high;
    assert n % 128 == b - 128 && n / 128 == high;
  }

  lemma {:induction false} EncodeByte(b: byte)
    requires b < 128
    ensures Encode(b) == [b]
  {}

  /** What the first byte says about a value that was read. */
  lemma {:induction false} ReadHead(buf: Bytes, i: nat, n: nat, rest: Bytes) returns (high: nat)
    requires i <= 9 && Read(buf, i) == Ok((n, rest))
    ensures buf != []
    ensures buf[0] >= 128 ==> i < 9 && Read(buf[1..], i + 1) == Ok((high, rest)) && n == buf[0] - 128 + 128 * high
    ensures buf[0] < 128 ==> rest == buf[1..] && n == (if i == 9 then buf[0] % 2 else buf[0]) && (buf[0] == 0 ==> i == 0)
  {
    high := if buf[0] >= 128 then Read(buf[1..], i + 1).value.0 else 0;
  }

  lemma SpillsLater(buf: Bytes, i: nat)
    requires i < 9 && buf != [] && buf[0] >= 128
    ensures Spills(buf, i) <==> Spills(buf[1..], i + 1)
  {
    assert forall j :: 0 < j < |buf| ==> buf[j] == buf[1..][j - 1];
    assert forall j :: 0 <= j < |buf| - 1 ==> buf[1..][j] == buf[j + 1];
  }

  /** A decoded value was written canonically, or its tenth byte lost bits. */
  lemma {:induction false} ReadIsCanonical(buf: Bytes, i: nat, n: nat, rest: Bytes)
    requires i <= 9
    requires Read(buf, i) == Ok((n, rest))
    ensures Spills(buf, i) || (buf == Encode(n) + rest && (i > 0 ==> n > 0))
    ensures Spills(buf, i) ==> rest == buf[10 - i..]
    decreases 9 - i
  {
    hide Encode, Read;
    var high := ReadHead(buf, i, n, rest);
    assert buf == [buf[0]] + buf[1..];
    if buf[0] >= 128 {
      hide Spills;
      ReadIsCanonical(buf[1..], i + 1, high, rest);
      SpillsLater(buf, i);
      if !Spills(buf, i) { EncodeNext(buf[0], high); }
    } else {
      EncodeByte(buf[0]);
    }
  }

  /** Continuation bytes that contribute nothing, ending in a tenth byte whose kept bit is zero. */
  ghost predicate Idle(buf: Bytes, i: nat)
    requires i <= 9
  {
    Spills(buf, i) && buf[9 - i] % 2 == 0 && forall j :: 0 <= j < 9 - i ==> buf[j] == 128
  }

  lemma {:induction false} IdleReadsZero(buf: Bytes, i: nat)
    requires i <= 9 && Spills(buf, i)
    ensures Read(buf, i).Ok?
    ensures Read(buf, i).value.0 == 0 <==> Idle(buf, i)
    ensures Read(buf, i).value.1 == buf[10 - i..]
    decreases 9 - i
  {
    if i < 9 {
      assert Spills(buf[1..], i + 1) by {
        forall j | 0 <= j < 8 - i ensures buf[1..][j] >= 128 {
          assert buf[1..][j] == buf[j + 1];
        }
      }
      IdleReadsZero(buf[1..], i + 1);
      assert Idle(buf, i) <==> buf[0] == 128 && Idle(buf[1..], i + 1) by {
        assert forall j :: 0 < j < 9 - i ==> buf[j] == buf[1..][j - 1];
        assert forall j :: 0 <= j < 8 - i ==> buf[1..][j] == buf[j + 1];
      }
    }
  }

  /** A two-byte code padded out to ten bytes, with a discarded bit in the last. */
  ghost predicate Overlong(buf: Bytes, code: nat)
    requires 128 <= code < 16384
  {
    |buf| >= 10 && buf[0] == 128 + code % 128 && buf[1] == 128 + code / 128 && Idle(buf[2..], 2)
  }

  /** Exactly the inputs whose varint reads as a given two-byte code. */
  lemma DecodesToCode(buf: Bytes, code: nat)
    requires 128 <= code < 16384
    ensures Decode(buf).Ok? && Decode(buf).value.0 == code <==> Encode(code) <= buf || Overlong(buf, code)
    ensures Encode(code) <= buf ==> Decode(buf) == Ok((code, buf[2..])) && |Encode(code)| == 2
    ensures Overlong(buf, code) ==> Decode(buf) == Ok((code, buf[10..]))
  {
    assert Encode(code) == [128 + code % 128, code / 128];
    if Encode(code) <= buf {
      assert buf == Encode(code) + buf[2..];
      DecodeEncode(code, buf[2..]);
    }
    if Overlong(buf, code) {
      IdleReadsZero(buf[2..], 2);
      assert buf[1..][1..] == buf[2..] && buf[2..][8..] == buf[10..];
      assert Read(buf[1..], 1).value.0 == code / 128;
    }
    if Decode(buf).Ok? && Decode(buf).value.0 == code {
      ReadIsCanonical(buf, 0, code, Decode(buf).value.1);
      if Spills(buf, 0) {
        SpillsToCode(buf, code);
      }
    }
  }

  lemma SpillsToCode(buf: Bytes, code: nat)
    requires 128 <= code < 16384
    requires Spills(buf, 0)
    requires Decode(buf).Ok? && Decode(buf).value.0 == code
    ensures Overlong(buf, code)
  {
    assert buf[0] >= 128 && buf[1] >= 128;
    assert buf[1..][1..] == buf[2..] && buf[1..][0] == buf[1];
    var tail := Read(buf[2..], 2).value.0;
    assert code == buf[0] - 128 + 128 * (buf[1] - 128 + 128 * tail);
    assert tail == 0;
    assert Spills(buf[2..], 2) by {
      forall j | 0 <= j < 7 ensures buf[2..][j] >= 128 {
        assert buf[2..][j] == buf[j + 2];
      }
    }
    IdleReadsZero(buf[2..], 2);
  }
}
