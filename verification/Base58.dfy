/** The Bitcoin base58 text form of byte strings, as `bs58` reads and writes it. */
module Base58 {
  import opened Wrappers
  import opened Positional

  predicate IsSymbol(c: char) {
    '1' <= c <= '9' || 'A' <= c <= 'H' || 'J' <= c <= 'N' || 'P' <= c <= 'Z' ||
    'a' <= c <= 'k' || 'm' <= c <= 'z'
  }

  /** 123456789ABCDEFGHJKLMNPQRSTUVWXYZabcdefghijkmnopqrstuvwxyz, by position. */
  function Symbol(d: nat): (c: char)
    requires d < 58
    ensures IsSymbol(c) && Digit(c) == d
  {
    if d < 9 then ('1' as int + d) as char
    else if d < 17 then ('A' as int + d - 9) as char
    else if d < 22 then ('J' as int + d - 17) as char
    else if d < 33 then ('P' as int + d - 22) as char
    else if d < 44 then ('a' as int + d - 33) as char
    else ('m' as int + d - 44) as char
  }

  function Digit(c: char): (d: nat)
    requires IsSymbol(c)
    ensures d < 58
  {
    if c <= '9' then c as int - '1' as int
    else if c <= 'H' then c as int - 'A' as int + 9
    else if c <= 'N' then c as int - 'J' as int + 17
    else if c <= 'Z' then c as int - 'P' as int + 22
    else if c <= 'k' then c as int - 'a' as int + 33
    else c as int - 'm' as int + 44
  }

  /** The 58 symbols are the ASCII digits and letters without "0", "O", "I" and "l", in ASCII order. */
  lemma Alphabet(c: char, d: nat, e: nat)
    ensures IsSymbol(c) <==> ('0' <= c <= '9' || 'A' <= c <= 'Z' || 'a' <= c <= 'z') && c !in "0OIl"
    ensures d < e < 58 ==> Symbol(d) < Symbol(e)
  {}

  predicate IsText(s: string) {
    forall i :: 0 <= i < |s| ==> IsSymbol(s[i])
  }

  function Encode(b: Bytes): (s: string)
    ensures IsText(s)
  {
    var ds := Respell(256, 58, b);
    seq(|ds|, i requires 0 <= i < |ds| => Symbol(ds[i]))
  }

  function Decode(s: string): (r: Result<Bytes, ()>)
    ensures r.Ok? <==> IsText(s)
  {
    if IsText(s) then
      Ok(Respell(58, 256, seq(|s|, i requires 0 <= i < |s| => Digit(s[i]))))
    else Err(())
  }

  /** Every byte string survives the trip through text. */
  lemma DecodeEncode(b: Bytes)
    ensures Decode(Encode(b)) == Ok(b)
  {
    var ds, s := Respell(256, 58, b), Encode(b);
    assert seq(|s|, i requires 0 <= i < |s| => Digit(s[i])) == ds;
    RespellInverse(256, 58, b);
  }

  /** No two texts denote the same bytes: decoding is exactly the inverse of encoding. */
  lemma EncodeDecode(s: string)
    requires IsText(s)
    ensures Encode(Decode(s).value) == s
  {
    hide Respell, Symbol, Digit, IsSymbol;
    var ds := seq(|s|, i requires 0 <= i < |s| => Digit(s[i]));
    RespellInverse(58, 256, ds);
    forall i | 0 <= i < |s| ensures Symbol(ds[i]) == s[i] { SymbolDigit(s[i]); }
  }

  lemma SymbolDigit(c: char)
    requires IsSymbol(c)
    ensures Symbol(Digit(c)) == c
  {}

  lemma EncodeNonempty(b: Bytes)
    ensures Encode(b) == [] <==> b == []
  {
    DecodeEncode(b);
    DecodeEncode([]);
    assert Respell(256, 58, []) == [];
  }

  lemma ValueExample(b: seq<nat>)
    requires b == [0, 0, 1, 2]
    ensures Value(256, b) == 258 && LeadingZeros(b) == 2
  {
    var one, two, three: seq<nat> := [0], [0, 0], [0, 0, 1];
    assert one[..0] == [] && two[..1] == one && three[..2] == two && b[..3] == three;
    assert Value(256, one) == 0 && Value(256, two) == 0 && Value(256, three) == 1;
    assert b[1..] == [0, 1, 2] && b[1..][1..] == [1, 2];
  }

  lemma SpellExample()
    ensures Spell(58, 258) == [4, 26]
  {
    assert Spell(58, 0) == [] && Spell(58, 4) == [4];
    assert Quotient(58, 258) == 4 && Remainder(58, 258) == 26;
    assert Spell(58, 258) == Spell(58, 4) + [26];
  }

  /** Leading zeros one for one, then the number. */
  lemma EncodeExample()
    ensures Encode([0, 0, 1, 2]) == "115T"
  {
    hide Spell, Value, LeadingZeros;
    ValueExample([0, 0, 1, 2]);
    SpellExample();
    assert Respell(256, 58, [0, 0, 1, 2]) == [0, 0, 4, 26];
  }
}
