/** The printed forms a match travels in: decimal big.Ints, lower-case hex and EIP-55 addresses. */
module Text {
  import opened Bytes
  import opened Results

  // ---- decimal (big.Int.String and SetString(s, 10)) ----

  function Digit(d: nat): char
    requires d < 16
  {
    if d < 10 then ('0' as int + d) as char else ('a' as int + d - 10) as char
  }

  function PrintNat(n: nat): string {
    if n < 10 then [Digit(n)] else PrintNat(n / 10) + [Digit(n % 10)]
  }

  function PrintInt(n: int): string {
    if n < 0 then "-" + PrintNat(-n) else PrintNat(n)
  }

  predicate IsDecimal(c: char) { '0' <= c <= '9' }

  /** The digits of s accumulated onto nothing; None for an empty string or a stray character. */
  function ParseNat(s: string): Option<int> {
    if s == [] then None
    else
      var last := s[|s| - 1];
      if !IsDecimal(last) then None
      else
        var unit := last as int - '0' as int;
        if |s| == 1 then Some(unit)
        else
          match ParseNat(s[..|s| - 1])
          case None => None
          case Some(high) => Some(high * 10 + unit)
  }

  function ParseInt(s: string): Option<int> {
    if s != [] && s[0] == '-' then
      match ParseNat(s[1..])
      case None => None
      case Some(n) => Some(-n)
    else if s != [] && s[0] == '+' then ParseNat(s[1..])
    else ParseNat(s)
  }

  lemma {:induction false} ParsePrintNat(n: nat)
    ensures ParseNat(PrintNat(n)) == Some(n)
    ensures PrintNat(n) != [] && IsDecimal(PrintNat(n)[0])
  {
    if n >= 10 {
      ParsePrintNat(n / 10);
      assert PrintNat(n)[..|PrintNat(n)| - 1] == PrintNat(n / 10);
    }
  }

  /** SetString(n.String(), 10) gives n back, for every integer. */
  lemma ParsePrintInt(n: int)
    ensures ParseInt(PrintInt(n)) == Some(n)
  {
    if n < 0 {
      ParsePrintNat(-n);
      ParseNegative(PrintNat(-n), -n);
    } else {
      ParsePrintNat(n);
      ParseUnsigned(PrintNat(n));
    }
  }

  lemma ParseNegative(digits: string, n: int)
    requires ParseNat(digits) == Some(n)
    ensures ParseInt("-" + digits) == Some(-n)
  {
    assert ("-" + digits)[1..] == digits;
  }

  lemma ParseUnsigned(digits: string)
    requires digits != [] && IsDecimal(digits[0])
    ensures ParseInt(digits) == ParseNat(digits)
  {
  }

  function Noughts(k: nat): string {
    seq(k, _ => '0')
  }

  /** s is n in decimal, with any number of zeros in front. */
  ghost predicate Counts(s: string, n: nat) {
    exists k: nat :: s == Noughts(k) + PrintNat(n)
  }

  /** s is n in decimal, a sign and any number of zeros in front allowed. */
  ghost predicate Writes(s: string, n: int) {
    if s != [] && s[0] == '-' then n <= 0 && Counts(s[1..], -n)
    else if s != [] && s[0] == '+' then n >= 0 && Counts(s[1..], n)
    else n >= 0 && Counts(s, n)
  }

  lemma {:induction false} NoughtsParse(k: nat)
    requires k > 0
    ensures ParseNat(Noughts(k)) == Some(0)
  {
    assert Noughts(k)[..k - 1] == Noughts(k - 1);
    if k > 1 {
      NoughtsParse(k - 1);
    }
  }

  lemma {:induction false} CountedParses(k: nat, n: nat)
    ensures ParseNat(Noughts(k) + PrintNat(n)) == Some(n)
  {
    var s := Noughts(k) + PrintNat(n);
    if n >= 10 {
      CountedParses(k, n / 10);
      assert s[..|s| - 1] == Noughts(k) + PrintNat(n / 10);
    } else if k > 0 {
      NoughtsParse(k);
      assert s[..|s| - 1] == Noughts(k);
    }
  }

  /** One digit more is ten times the number and the digit. */
  lemma DigitCounts(high: string, h: nat, unit: nat)
    requires Counts(high, h) && unit < 10
    ensures Counts(high + [Digit(unit)], h * 10 + unit)
  {
    var k: nat :| high == Noughts(k) + PrintNat(h);
    if h == 0 {
      assert high + [Digit(unit)] == Noughts(k + 1) + PrintNat(unit);
    } else {
      assert PrintNat(h * 10 + unit) == PrintNat(h) + [Digit(unit)];
      assert high + [Digit(unit)] == Noughts(k) + PrintNat(h * 10 + unit);
    }
  }

  lemma LastDigit(c: char)
    requires IsDecimal(c)
    ensures var unit := c as int - '0' as int; 0 <= unit < 10 && Digit(unit) == c
  {
  }

  lemma {:induction false} ParsedCounts(s: string)
    requires ParseNat(s).Some?
    ensures ParseNat(s).value >= 0 && Counts(s, ParseNat(s).value)
  {
    var high, last := s[..|s| - 1], s[|s| - 1];
    LastDigit(last);
    if |s| == 1 {
      assert s == Noughts(0) + PrintNat(ParseNat(s).value);
    } else {
      ParsedCounts(high);
      DigitCounts(high, ParseNat(high).value, last as int - '0' as int);
      assert s == high + [last];
    }
  }

  lemma ParseNatExactly(s: string, n: nat)
    ensures ParseNat(s) == Some(n) <==> Counts(s, n)
    ensures ParseNat(s).Some? ==> ParseNat(s).value >= 0
  {
    if ParseNat(s).Some? {
      ParsedCounts(s);
    }
    if k: nat :| s == Noughts(k) + PrintNat(n) {
      CountedParses(k, n);
    }
  }

  /** SetString accepts exactly the decimal numerals, and reads each as the number it writes. */
  lemma ParseIntExactly(s: string, n: int)
    ensures ParseInt(s) == Some(n) <==> Writes(s, n)
  {
    if s != [] && s[0] == '-' {
      ParseNatExactly(s[1..], if n <= 0 then -n else n);
    } else if s != [] && s[0] == '+' {
      ParseNatExactly(s[1..], if n >= 0 then n else -n);
    } else {
      ParseNatExactly(s, if n >= 0 then n else -n);
    }
  }

  // ---- hex ----

  function HexDigits(b: seq<Byte>): string {
    if b == [] then [] else [Digit(b[0] / 16), Digit(b[0] % 16)] + HexDigits(b[1..])
  }

  /** common.Bytes2Hex with the "0x" the callers put in front; also common.Hash.Hex(). */
  function Hex(b: seq<Byte>): string {
    "0x" + HexDigits(b)
  }

  function Upper(c: char): char {
    if 'a' <= c <= 'f' then (c as int - 'a' as int + 'A' as int) as char else c
  }

  function Ascii(s: string): seq<Byte> {
    seq(|s|, i requires 0 <= i < |s| => s[i] as int % 256)
  }

  /** Nibble i of a digest, the high half of each byte first. */
  function Nibble(digest: Hash, i: nat): nat
    requires i < 64
  {
    if i % 2 == 0 then digest[i / 2] / 16 else digest[i / 2] % 16
  }

  /** common.Address.Hex(): a letter is upper case when the digest nibble beside it exceeds 7. */
  function AddressHex(keccak: seq<Byte> -> Hash, a: Address): string {
    var low := HexDigits(a);
    HexDigitsLength(a);
    var digest := keccak(Ascii(low));
    "0x" + seq(|low|, i requires 0 <= i < |low| => if Nibble(digest, i) > 7 then Upper(low[i]) else low[i])
  }

  function NibbleOf(c: char): (n: Option<nat>)
    ensures n.Some? ==> n.value < 16
  {
    if '0' <= c <= '9' then Some(c as int - '0' as int)
    else if 'a' <= c <= 'f' then Some(c as int - 'a' as int + 10)
    else if 'A' <= c <= 'F' then Some(c as int - 'A' as int + 10)
    else None
  }

  /** hex.DecodeString with its error dropped, as common.Hex2Bytes does: the bytes before the first bad digit. */
  function HexBytes(s: string): seq<Byte> {
    if |s| < 2 || NibbleOf(s[0]).None? || NibbleOf(s[1]).None? then []
    else [(NibbleOf(s[0]).value * 16 + NibbleOf(s[1]).value) % 256] + HexBytes(s[2..])
  }

  /** common.FromHex: an optional prefix, and a zero in front of an odd number of digits. */
  function FromHex(s: string): seq<Byte> {
    var digits := if |s| >= 2 && s[0] == '0' && (s[1] == 'x' || s[1] == 'X') then s[2..] else s;
    HexBytes(if |digits| % 2 == 1 then "0" + digits else digits)
  }

  /** SetBytes of common.Hash and common.Address: crop from the left, or pad on the left. */
  function Fit(b: seq<Byte>, size: nat): (r: seq<Byte>)
    ensures |r| == size
  {
    if |b| > size then b[|b| - size..] else Zeros(size - |b|) + b
  }

  function HexToHash(s: string): Hash { Fit(FromHex(s), 32) }

  function HexToAddress(s: string): Address { Fit(FromHex(s), 20) }

  lemma {:induction false} HexDigitsLength(b: seq<Byte>)
    ensures |HexDigits(b)| == 2 * |b|
  {
    if b != [] {
      HexDigitsLength(b[1..]);
    }
  }

  /** s is b in hex, whatever the case of each letter. */
  ghost predicate Spells(s: string, b: seq<Byte>) {
    |s| == 2 * |b| &&
    forall i | 0 <= i < |b| ::
      NibbleOf(s[2 * i]) == Some(b[i] / 16) && NibbleOf(s[2 * i + 1]) == Some(b[i] % 16)
  }

  lemma SpelledBytes(s: string, b: seq<Byte>)
    requires Spells(s, b)
    ensures HexBytes(s) == b
  {
    ReadsUpToStray(s, b, "");
    assert s + "" == s;
  }

  /** Reading stops at the first pair that holds a stray character. */
  lemma {:induction false} ReadsUpToStray(good: string, b: seq<Byte>, rest: string)
    requires Spells(good, b) && (|rest| < 2 || NibbleOf(rest[0]).None? || NibbleOf(rest[1]).None?)
    ensures HexBytes(good + rest) == b
  {
    if b == [] {
      assert good + rest == rest;
    } else {
      assert NibbleOf(good[2 * 0]) == Some(b[0] / 16) && NibbleOf(good[2 * 0 + 1]) == Some(b[0] % 16);
      SpellsTail(good, b);
      ReadsUpToStray(good[2..], b[1..], rest);
      assert (good + rest)[2..] == good[2..] + rest;
    }
  }

  lemma SpellsTail(s: string, b: seq<Byte>)
    requires Spells(s, b) && b != []
    ensures |s| >= 2 && Spells(s[2..], b[1..])
  {
    forall i | 0 <= i < |b[1..]|
      ensures NibbleOf(s[2..][2 * i]) == Some(b[1..][i] / 16) && NibbleOf(s[2..][2 * i + 1]) == Some(b[1..][i] % 16)
    {
      assert s[2..][2 * i] == s[2 * (i + 1)] && s[2..][2 * i + 1] == s[2 * (i + 1) + 1];
    }
  }

  lemma SpellsCons(s: string, x: Byte, rest: seq<Byte>)
    requires |s| >= 2 && NibbleOf(s[0]) == Some(x / 16) && NibbleOf(s[1]) == Some(x % 16) && Spells(s[2..], rest)
    ensures Spells(s, [x] + rest)
  {
    var b, tail := [x] + rest, s[2..];
    forall i | 0 <= i < |b|
      ensures NibbleOf(s[2 * i]) == Some(b[i] / 16) && NibbleOf(s[2 * i + 1]) == Some(b[i] % 16)
    {
      if i > 0 {
        assert NibbleOf(tail[2 * (i - 1)]) == Some(rest[i - 1] / 16);
        assert s[2 * i] == tail[2 * (i - 1)] && s[2 * i + 1] == tail[2 * (i - 1) + 1];
      }
    }
  }

  lemma {:induction false} DigitsSpell(b: seq<Byte>)
    ensures Spells(HexDigits(b), b)
  {
    if b != [] {
      DigitsSpell(b[1..]);
      assert HexDigits(b)[2..] == HexDigits(b[1..]);
      SpellsCons(HexDigits(b), b[0], b[1..]);
      assert [b[0]] + b[1..] == b;
    }
  }

  /** Pairs of hex digits spell the bytes they are read as. */
  lemma {:induction false} HexSpells(s: string)
    requires |s| % 2 == 0 && forall i | 0 <= i < |s| :: NibbleOf(s[i]).Some?
    ensures Spells(s, HexBytes(s))
  {
    if s != [] {
      var rest, high, low := s[2..], NibbleOf(s[0]).value, NibbleOf(s[1]).value;
      HexSpells(rest);
      NibblesBack(high, low);
      assert HexBytes(s) == [high * 16 + low] + HexBytes(rest);
      SpellsCons(s, high * 16 + low, HexBytes(rest));
    }
  }

  lemma NibblesBack(high: nat, low: nat)
    requires high < 16 && low < 16
    ensures high * 16 + low < 256 && (high * 16 + low) / 16 == high && (high * 16 + low) % 16 == low
  {
  }

  lemma HexRoundTrip(b: seq<Byte>)
    ensures FromHex(Hex(b)) == b
  {
    DigitsSpell(b);
    assert Hex(b)[2..] == HexDigits(b);
    SpelledBytes(HexDigits(b), b);
  }

  lemma HashRoundTrip(h: Hash)
    ensures HexToHash(Hex(h)) == h
  {
    HexRoundTrip(h);
  }

  lemma UpperIsTheSameDigit(c: char)
    ensures NibbleOf(Upper(c)) == NibbleOf(c)
  {
  }

  /** Whatever the casing, an address is spelled behind its prefix. */
  lemma AddressSpells(keccak: seq<Byte> -> Hash, a: Address)
    ensures AddressHex(keccak, a)[..2] == "0x" && Spells(AddressHex(keccak, a)[2..], a)
  {
    var low := HexDigits(a);
    DigitsSpell(a);
    var s := AddressHex(keccak, a);
    var mixed := s[2..];
    forall i | 0 <= i < |a|
      ensures NibbleOf(mixed[2 * i]) == Some(a[i] / 16) && NibbleOf(mixed[2 * i + 1]) == Some(a[i] % 16)
    {
      assert NibbleOf(low[2 * i]) == Some(a[i] / 16) && NibbleOf(low[2 * i + 1]) == Some(a[i] % 16);
      UpperIsTheSameDigit(low[2 * i]);
      UpperIsTheSameDigit(low[2 * i + 1]);
      assert mixed[2 * i] == low[2 * i] || mixed[2 * i] == Upper(low[2 * i]);
      assert mixed[2 * i + 1] == low[2 * i + 1] || mixed[2 * i + 1] == Upper(low[2 * i + 1]);
    }
  }

  /** The checksum casing, whatever the digest says, is lost on the way back in. */
  lemma AddressRoundTrip(keccak: seq<Byte> -> Hash, a: Address)
    ensures HexToAddress(AddressHex(keccak, a)) == a
  {
    AddressSpells(keccak, a);
    SpelledBytes(AddressHex(keccak, a)[2..], a);
  }
}
