/**
  The `URL_SAFE_LENIENT` engine: base64url (section 5 of RFC 4648), written
  without padding and read with padding optional.  A final group may carry
  none, some or all of its '=' signs; its unused low bits must be zero.
 */
module Base64Url {
  import opened Wrappers

  type sextet = n: nat | n < 64

  predicate IsSymbol(c: char) {
    'A' <= c <= 'Z' || 'a' <= c <= 'z' || '0' <= c <= '9' || c == '-' || c == '_'
  }

  function Symbol(d: sextet): (c: char)
    ensures IsSymbol(c) && Index(c) == d
  {
    if d < 26 then ('A' as int + d) as char
    else if d < 52 then ('a' as int + d - 26) as char
    else if d < 62 then ('0' as int + d - 52) as char
    else if d == 62 then '-' else '_'
  }

  function Index(c: char): (d: sextet)
    requires IsSymbol(c)
  {
    if 'A' <= c <= 'Z' then c as int - 'A' as int
    else if 'a' <= c <= 'z' then c as int - 'a' as int + 26
    else if '0' <= c <= '9' then c as int - '0' as int + 52
    else if c == '-' then 62 else 63
  }

  predicate IsText(s: string) {
    forall i :: 0 <= i < |s| ==> IsSymbol(s[i])
  }

  /** The order of the alphabet: capitals, small letters, digits, minus, underscore. */
  lemma Alphabet(d: sextet)
    ensures Symbol(0) == 'A' && Symbol(26) == 'a' && Symbol(52) == '0' && Symbol(62) == '-' && Symbol(63) == '_'
    ensures d !in {25, 51, 61, 62, 63} ==> Symbol(d + 1) as int == Symbol(d) as int + 1
  {}

  /** Three bytes to four sextets; a shorter last group is zero-filled and cut. */
  function Sextets(b: Bytes): (ds: seq<sextet>)
    ensures b != [] ==> ds != []
  {
    if |b| == 0 then []
    else if |b| == 1 then [b[0] / 4, b[0] % 4 * 16]
    else if |b| == 2 then [b[0] / 4, b[0] % 4 * 16 + b[1] / 16, b[1] % 16 * 4]
    else
      [b[0] / 4, b[0] % 4 * 16 + b[1] / 16, b[1] % 16 * 4 + b[2] / 64, b[2] % 64] + Sextets(b[3..])
  }

  /** The number spelled by the first `n` sextets, and by the first `n` bytes. */
  function Joined(ds: seq<sextet>, n: nat): nat
    requires n <= |ds|
  {
    if n == 0 then 0 else 64 * Joined(ds, n - 1) + ds[n - 1]
  }

  function Bits(b: Bytes, n: nat): nat
    requires n <= |b|
  {
    if n == 0 then 0 else 256 * Bits(b, n - 1) + b[n - 1]
  }

  /** Every group of sextets is the bits of its bytes, high ones first, with zero bits after a short group. */
  lemma {:induction false} GroupBits(b: Bytes)
    ensures |b| == 1 ==> |Sextets(b)| == 2 && Joined(Sextets(b), 2) == Bits(b, 1) * 16
    ensures |b| == 2 ==> |Sextets(b)| == 3 && Joined(Sextets(b), 3) == Bits(b, 2) * 4
    ensures |b| >= 3 ==> |Sextets(b)| >= 4 && Joined(Sextets(b), 4) == Bits(b, 3) && Sextets(b)[4..] == Sextets(b[3..])
  {
    var ds := Sextets(b);
    if |b| >= 1 { assert Joined(ds, 1) == ds[0] && Bits(b, 1) == b[0]; }
    if |b| >= 2 { assert Joined(ds, 2) == 64 * Joined(ds, 1) + ds[1] && Bits(b, 2) == 256 * Bits(b, 1) + b[1]; }
    if |b| >= 2 { assert Joined(ds, 3) == 64 * Joined(ds, 2) + ds[2]; }
    if |b| >= 3 { assert Joined(ds, 4) == 64 * Joined(ds, 3) + ds[3] && Bits(b, 3) == 256 * Bits(b, 2) + b[2]; }
  }

  function Octet0(d0: nat, d1: nat): byte requires d0 < 64 && d1 < 64 { d0 * 4 + d1 / 16 }
  function Octet1(d1: nat, d2: nat): byte requires d1 < 64 && d2 < 64 { d1 % 16 * 16 + d2 / 4 }
  function Octet2(d2: nat, d3: nat): byte requires d2 < 64 && d3 < 64 { d2 % 4 * 64 + d3 }

  /** The reverse; one left-over sextet or a non-zero unused bit is refused. */
  function Octets(ds: seq<sextet>): (r: Option<Bytes>) {
    if |ds| == 0 then Some([])
    else if |ds| == 1 then None
    else if |ds| == 2 then
      if ds[1] % 16 == 0 then Some([Octet0(ds[0], ds[1])]) else None
    else if |ds| == 3 then
      if ds[2] % 4 == 0 then Some([Octet0(ds[0], ds[1]), Octet1(ds[1], ds[2])]) else None
    else
      var rest :- Octets(ds[4..]);
      Some([Octet0(ds[0], ds[1]), Octet1(ds[1], ds[2]), Octet2(ds[2], ds[3])] + rest)
  }

  lemma GroupOctets(b0: byte, b1: byte, b2: byte)
    ensures Octet0(b0 / 4, b0 % 4 * 16 + b1 / 16) == b0
    ensures Octet1(b0 % 4 * 16 + b1 / 16, b1 % 16 * 4 + b2 / 64) == b1
    ensures Octet2(b1 % 16 * 4 + b2 / 64, b2 % 64) == b2
  {}

  lemma {:induction false} OctetsSextets(b: Bytes)
    ensures Octets(Sextets(b)) == Some(b)
  {
    hide Octet0, Octet1, Octet2;
    if |b| >= 3 {
      OctetsSextets(b[3..]);
      GroupOctets(b[0], b[1], b[2]);
      assert Sextets(b)[4..] == Sextets(b[3..]);
      assert b == [b[0], b[1], b[2]] + b[3..];
    } else if |b| == 2 {
      GroupOctets(b[0], b[1], 0);
      assert b == [b[0], b[1]];
    } else if |b| == 1 {
      GroupOctets(b[0], 0, 0);
      assert b == [b[0]];
    }
  }

  lemma GroupSextets(d0: sextet, d1: sextet, d2: sextet, d3: sextet)
    ensures Octet0(d0, d1) / 4 == d0
    ensures Octet0(d0, d1) % 4 * 16 + Octet1(d1, d2) / 16 == d1
    ensures Octet1(d1, d2) % 16 * 4 + Octet2(d2, d3) / 64 == d2
    ensures Octet2(d2, d3) % 64 == d3
    ensures d1 % 16 == 0 ==> Octet0(d0, d1) % 4 * 16 == d1
    ensures d2 % 4 == 0 ==> Octet1(d1, d2) % 16 * 4 == d2
  {}

  lemma {:induction false} SextetsOctets(ds: seq<sextet>)
    requires Octets(ds).Some?
    ensures Sextets(Octets(ds).value) == ds
  {
    hide Octet0, Octet1, Octet2;
    if |ds| >= 4 {
      SextetsOctets(ds[4..]);
      GroupSextets(ds[0], ds[1], ds[2], ds[3]);
      assert Octets(ds).value[3..] == Octets(ds[4..]).value;
      assert ds == [ds[0], ds[1], ds[2], ds[3]] + ds[4..];
    } else if |ds| == 3 {
      GroupSextets(ds[0], ds[1], ds[2], 0);
      assert ds == [ds[0], ds[1], ds[2]];
    } else if |ds| == 2 {
      GroupSextets(ds[0], ds[1], 0, 0);
      assert ds == [ds[0], ds[1]];
    }
  }

  function Text(ds: seq<sextet>): (s: string)
    ensures IsText(s) && |s| == |ds|
  {
    seq(|ds|, i requires 0 <= i < |ds| => Symbol(ds[i]))
  }

  function Indices(s: string): (ds: seq<sextet>)
    requires IsText(s)
    ensures |ds| == |s|
  {
    seq(|s|, i requires 0 <= i < |s| => Index(s[i]))
  }

  function Encode(b: Bytes): (s: string)
    ensures IsText(s)
    ensures b != [] ==> s != []
  {
    Text(Sextets(b))
  }

  /** How many '=' end the text. */
  function TrailingPads(s: string): (p: nat)
    ensures p <= |s|
    ensures forall i :: |s| - p <= i < |s| ==> s[i] == '='
    ensures p < |s| ==> s[|s| - p - 1] != '='
  {
    if s == [] || s[|s| - 1] != '=' then 0 else 1 + TrailingPads(s[..|s| - 1])
  }

  /** The '=' signs that would complete the last group of `n` symbols. */
  function MissingPads(n: nat): (p: nat)
    ensures p <= 3
  {
    (4 - n % 4) % 4
  }

  function Decode(s: string): (r: Option<Bytes>) {
    var p := TrailingPads(s);
    var body := s[..|s| - p];
    if IsText(body) && p <= MissingPads(|body|) then Octets(Indices(body)) else None
  }

  function Pads(p: nat): (s: string)
    ensures |s| == p && forall i :: 0 <= i < p ==> s[i] == '='
  {
    seq(p, _ => '=')
  }

  lemma SymbolIndex(c: char)
    requires IsSymbol(c)
    ensures Symbol(Index(c)) == c
  {}

  lemma {:induction false} TrailingPadsOf(text: string, p: nat)
    requires IsText(text)
    ensures TrailingPads(text + Pads(p)) == p
  {
    if p > 0 {
      TrailingPadsOf(text, p - 1);
      var s := text + Pads(p);
      assert s[..|s| - 1] == text + Pads(p - 1);
    } else {
      assert text + Pads(0) == text;
    }
  }

  /** Every encoding is read back, with any number of its padding signs present. */
  lemma DecodeEncodePadded(b: Bytes, p: nat)
    requires p <= MissingPads(|Encode(b)|)
    ensures Decode(Encode(b) + Pads(p)) == Some(b)
  {
    var s := Encode(b) + Pads(p);
    TrailingPadsOf(Encode(b), p);
    assert s[..|s| - p] == Encode(b);
    assert Indices(Encode(b)) == Sextets(b);
    OctetsSextets(b);
  }

  lemma DecodeEncode(b: Bytes)
    ensures Decode(Encode(b)) == Some(b)
  {
    DecodeEncodePadded(b, 0);
    assert Encode(b) + Pads(0) == Encode(b);
  }

  /** And nothing else is read: the accepted texts are exactly the padded encodings. */
  lemma DecodeAccepts(s: string, b: Bytes)
    ensures Decode(s) == Some(b) <==> exists p: nat :: p <= MissingPads(|Encode(b)|) && s == Encode(b) + Pads(p)
  {
    if Decode(s) == Some(b) {
      var p := TrailingPads(s);
      var body := s[..|s| - p];
      SextetsOctets(Indices(body));
      forall i | 0 <= i < |body| ensures Encode(b)[i] == body[i] {
        SymbolIndex(body[i]);
      }
      assert s == Encode(b) + Pads(p);
    }
    if p: nat :| p <= MissingPads(|Encode(b)|) && s == Encode(b) + Pads(p) {
      DecodeEncodePadded(b, p);
    }
  }
}
