/** Characters, apart from any table: UTF-8 by section 3 of RFC 3629 and the characters of XML 1.0. */
module Unicode {
  import opened Bytes
  import opened ByteTypes
  import opened CharacterRefs

  predicate Tail(b: byte) {
    0x80 <= b <= 0xBF
  }

  /** The six bits of a tail byte, in their place. */
  function Bits(b: byte, weight: nat): int {
    (b as int - 0x80) * weight
  }

  /** The bytes are the shortest form of the number. */
  predicate Encodes(s: Octets, n: nat) {
    match |s|
    case 1 => n < 0x80 && s[0] == n
    case 2 =>
      && 0x80 <= n < 0x800 && Tail(s[1])
      && n == (s[0] as int - 0xC0) * 0x40 + Bits(s[1], 1)
    case 3 =>
      && 0x800 <= n < 0x1_0000 && Tail(s[1]) && Tail(s[2])
      && n == (s[0] as int - 0xE0) * 0x1000 + Bits(s[1], 0x40) + Bits(s[2], 1)
    case 4 =>
      && 0x1_0000 <= n < 0x11_0000 && Tail(s[1]) && Tail(s[2]) && Tail(s[3])
      && n == (s[0] as int - 0xF0) * 0x4_0000 + Bits(s[1], 0x1000) + Bits(s[2], 0x40) + Bits(s[3], 1)
    case _ => false
  }

  /** Production [2] of XML 1.0, Char. */
  predicate LegalChar(n: nat) {
    || n == 0x9 || n == 0xA || n == 0xD || 0x20 <= n <= 0xD7FF || 0xE000 <= n <= 0xFFFD
    || 0x1_0000 <= n <= 0x10_FFFF
  }

  /** The bytes of one character that may stand in a document. */
  ghost predicate IsChar(s: Octets) {
    exists n: nat :: Encodes(s, n) && LegalChar(n)
  }

  /** A text of such characters. */
  ghost predicate IsText(s: Octets)
    decreases |s|
  {
    s == [] || exists n :: 1 <= n <= |s| && IsChar(s[..n]) && IsText(s[n..])
  }

  lemma OneNumber(s: Octets, m: nat, n: nat)
    requires Encodes(s, m) && Encodes(s, n)
    ensures m == n
  {
  }

  /** A number has one encoding. */
  lemma OneEncoding(s: Octets, t: Octets, n: nat)
    requires Encodes(s, n) && Encodes(t, n)
    ensures s == t
  {
    match |s|
    case 1 =>
    case 2 => SameBits(s[0], s[1], t[0], t[1]);
    case 3 => SameThree(s[0], s[1], s[2], t[0], t[1], t[2]);
    case 4 => SameFour(s[0], s[1], s[2], s[3], t[0], t[1], t[2], t[3]);
  }

  lemma SameBits(a: int, b: int, c: int, d: int)
    requires 0x80 <= b < 0xC0 && 0x80 <= d < 0xC0 && a * 0x40 + b == c * 0x40 + d
    ensures a == c && b == d
  {
  }

  lemma SameThree(a: int, b: int, c: int, a': int, b': int, c': int)
    requires 0x80 <= b < 0xC0 && 0x80 <= b' < 0xC0 && 0x80 <= c < 0xC0 && 0x80 <= c' < 0xC0
    requires a * 0x1000 + b * 0x40 + c == a' * 0x1000 + b' * 0x40 + c'
    ensures a == a' && b == b' && c == c'
  {
    SameBits(a * 0x40 + b, c, a' * 0x40 + b', c');
    SameBits(a, b, a', b');
  }

  lemma SameFour(a: int, b: int, c: int, d: int, a': int, b': int, c': int, d': int)
    requires 0x80 <= b < 0xC0 && 0x80 <= b' < 0xC0 && 0x80 <= c < 0xC0 && 0x80 <= c' < 0xC0
    requires 0x80 <= d < 0xC0 && 0x80 <= d' < 0xC0
    requires a * 0x4_0000 + b * 0x1000 + c * 0x40 + d == a' * 0x4_0000 + b' * 0x1000 + c' * 0x40 + d'
    ensures a == a' && b == b' && c == c' && d == d'
  {
    SameBits(a * 0x1000 + b * 0x40 + c, d, a' * 0x1000 + b' * 0x40 + c', d');
    SameThree(a, b, c, a', b', c');
  }

  lemma Utf8EncodeEncodes(n: nat)
    requires n < LIMIT
    ensures Encodes(Utf8Encode(n), n)
  {
    assert n / 0x40 / 0x40 == n / 0x1000 && n / 0x1000 / 0x40 == n / 0x4_0000;
  }

  /** The numbers that a reference may denote are the legal characters. */
  lemma AllowedIsLegal(n: nat)
    ensures n < LIMIT && Allowed(n) <==> LegalChar(n)
  {
  }

  lemma NumberIn2(s: Octets) returns (n: nat)
    requires |s| == 2 && !Invalid2(s) && s[0] < 0xE0
    ensures Encodes(s, n) && LegalChar(n)
  {
    n := (s[0] as int - 0xC0) * 0x40 + Bits(s[1], 1);
  }

  lemma NumberIn3(s: Octets) returns (n: nat)
    requires |s| == 3 && !Invalid3(s) && 0xE0 <= s[0] < 0xF0
    ensures Encodes(s, n) && LegalChar(n)
  {
    n := (s[0] as int - 0xE0) * 0x1000 + Bits(s[1], 0x40) + Bits(s[2], 1);
  }

  lemma NumberIn4(s: Octets) returns (n: nat)
    requires |s| == 4 && !Invalid4(s) && 0xF0 <= s[0] < 0xF5
    ensures Encodes(s, n) && LegalChar(n)
  {
    n := (s[0] as int - 0xF0) * 0x4_0000 + Bits(s[1], 0x1000) + Bits(s[2], 0x40) + Bits(s[3], 1);
  }

  /** A character is refused exactly when it is no legal character in its shortest form. */
  lemma RefusedMeans(enc: Encoding, s: Octets)
    requires s != [] && |s| == CharSize(ByteType(enc, s[0]))
    ensures Refused(ByteType(enc, s[0]), s) <==> !IsChar(s)
  {
    if !Refused(ByteType(enc, s[0]), s) {
      if |s| == 1 {
        assert Encodes(s, s[0]) && LegalChar(s[0]);
      } else if |s| == 2 {
        var n := NumberIn2(s);
      } else if |s| == 3 {
        var n := NumberIn3(s);
      } else {
        var n := NumberIn4(s);
      }
    } else {
      forall n: nat | Encodes(s, n) ensures !LegalChar(n) {
      }
    }
  }

  /** The first byte of a character tells how many bytes it has. */
  lemma SizeOfChar(enc: Encoding, s: Octets, n: nat)
    requires n <= |s| && IsChar(s[..n])
    ensures 1 <= n == CharSize(ByteType(enc, s[0]))
  {
  }
}
