/** Character references and predefined entities: `charRefNumber`, `XmlUtf8Encode`, `predefinedEntityName`. */
module CharacterRefs {
  import opened Bytes
  import opened Common

  /** The value of a digit of a character reference; the scanner has refused everything else. */
  function DigitValue(c: byte): (d: nat)
    ensures d < 16
  {
    if 0x30 <= c <= 0x39 then c - 0x30
    else if 0x41 <= c <= 0x46 then c - 0x41 + 10
    else if 0x61 <= c <= 0x66 then c - 0x61 + 10
    else 0
  }

  /** Positional notation. */
  function DigitsValue(s: Octets, base: nat): nat {
    if s == [] then 0 else DigitsValue(s[..|s| - 1], base) * base + DigitValue(s[|s| - 1])
  }

  const LIMIT: nat := 0x110000

  /** checkCharRefNumber: surrogates, control characters and two non-characters are refused. */
  predicate Allowed(n: nat) {
    && !(0xD800 <= n <= 0xDFFF)
    && (n < 0x20 ==> n == 0x09 || n == 0x0A || n == 0x0D)
    && n != 0xFFFE && n != 0xFFFF
  }

  /** The number that a reference denotes, from its digits. */
  function NumberOf(digits: Octets, base: nat): Option<nat> {
    var n := DigitsValue(digits, base);
    if n < LIMIT && Allowed(n) then Some(n) else None
  }

  /** The number of a whole reference "&#...;" or "&#x...;". */
  function RefNumber(ref: Octets): Option<nat> {
    if |ref| < 4 then None
    else if ref[2] == 0x78 then NumberOf(ref[3..|ref| - 1], 16)
    else NumberOf(ref[2..|ref| - 1], 10)
  }

  lemma {:induction false} DigitsGrow(s: Octets, k: nat, base: nat)
    requires k <= |s| && base >= 1
    ensures DigitsValue(s[..k], base) <= DigitsValue(s, base)
    decreases |s|
  {
    if k < |s| {
      var front := s[..|s| - 1];
      assert front[..k] == s[..k];
      DigitsGrow(front, k, base);
      Scaled(DigitsValue(front, base), base);
    } else {
      assert s[..k] == s;
    }
  }

  lemma Scaled(v: nat, base: nat)
    requires base >= 1
    ensures v <= v * base
  {
  }

  /** The loops of charRefNumber leave as soon as the number is too large. */
  method CharRefNumber(ref: Octets) returns (r: Option<nat>)
    requires |ref| >= 4
    ensures r == RefNumber(ref)
  {
    var start, base: nat := 2, 10;
    if ref[2] == 0x78 {
      start, base := 3, 16;
    }
    var digits := ref[start..|ref| - 1];
    var result := 0;
    for k := 0 to |digits|
      invariant result == DigitsValue(digits[..k], base) < LIMIT
    {
      assert digits[..k + 1][..k] == digits[..k];
      result := result * base + DigitValue(digits[k]);
      if result >= LIMIT {
        DigitsGrow(digits, k + 1, base);
        return None;
      }
    }
    assert digits[..|digits|] == digits;
    r := if Allowed(result) then Some(result) else None;
  }

  /** XmlUtf8Encode */
  function Utf8Encode(c: nat): (s: Octets)
    requires c < LIMIT
    ensures 1 <= |s| <= 4
  {
    if c < 0x80 then [c]
    else if c < 0x800 then [0xC0 + c / 0x40, 0x80 + c % 0x40]
    else if c < 0x10000 then [0xE0 + c / 0x1000, 0x80 + c / 0x40 % 0x40, 0x80 + c % 0x40]
    else [0xF0 + c / 0x40000, 0x80 + c / 0x1000 % 0x40, 0x80 + c / 0x40 % 0x40, 0x80 + c % 0x40]
  }

  /** predefinedEntityName */
  function Predefined(name: Octets): Option<byte> {
    if name == [0x6C, 0x74] then Some(0x3C)
    else if name == [0x67, 0x74] then Some(0x3E)
    else if name == [0x61, 0x6D, 0x70] then Some(0x26)
    else if name == [0x71, 0x75, 0x6F, 0x74] then Some(0x22)
    else if name == [0x61, 0x70, 0x6F, 0x73] then Some(0x27)
    else None
  }
}
