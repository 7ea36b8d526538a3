/** The classes of the byte tables, against the productions of XML 1.0. */
module CharacterClasses {
  import opened Bytes
  import opened ByteTypes
  import opened ContentAutomaton

  predicate IsLetter(b: byte) {
    'a' as int <= b <= 'z' as int || 'A' as int <= b <= 'Z' as int
  }

  predicate IsDigit(b: byte) {
    '0' as int <= b <= '9' as int
  }

  /** The ASCII part of production [4] of Namespaces in XML 1.0: NameStartChar without the colon. */
  predicate StartsNCName(b: byte) {
    IsLetter(b) || b == '_' as int
  }

  /** The ASCII part of NameChar without the colon. */
  predicate InNCName(b: byte) {
    StartsNCName(b) || IsDigit(b) || b == '-' as int || b == '.' as int
  }

  lemma NameClasses(enc: Encoding, b: byte)
    requires b < 0x80
    ensures IsNmStrt(enc, ByteType(enc, b), [b]) <==> StartsNCName(b) || (b == ':' as int && !enc.ns)
    ensures IsNameChar(enc, ByteType(enc, b), [b]) <==> InNCName(b) || (b == ':' as int && !enc.ns)
    ensures ByteType(enc, b) == Colon <==> b == ':' as int && enc.ns
  {
  }

  lemma DigitClasses(enc: Encoding, b: byte)
    ensures ByteType(enc, b) == Digit <==> IsDigit(b)
    ensures ByteType(enc, b) == Hex <==> 'a' as int <= b <= 'f' as int || 'A' as int <= b <= 'F' as int
  {
  }

  /** White space is space, tab, line feed and carriage return; line ends in entities are normalised already. */
  lemma BlankClasses(enc: Encoding, b: byte)
    ensures IsBlank(ByteType(enc, b)) <==> b == 0x20 || b == 0x9 || b == 0xA || b == 0xD
    ensures ByteType(enc, b) == Lf <==> b == 0xA
    ensures ByteType(enc, b) == Cr <==> b == 0xD && !enc.internal
  {
  }

  lemma ControlClass(enc: Encoding, b: byte)
    requires b < 0x80
    ensures ByteType(enc, b) == NonXml <==> b < 0x20 && b != 0x9 && b != 0xA && b != 0xD
  {
  }

  /** Each delimiter is a class of its own. */
  lemma MarkupClasses(enc: Encoding, b: byte)
    ensures ByteType(enc, b) == Lt <==> b == '<' as int
    ensures ByteType(enc, b) == Gt <==> b == '>' as int
    ensures ByteType(enc, b) == Amp <==> b == '&' as int
    ensures ByteType(enc, b) == Rsqb <==> b == ']' as int
    ensures ByteType(enc, b) == Lsqb <==> b == '[' as int
    ensures ByteType(enc, b) == Excl <==> b == '!' as int
    ensures ByteType(enc, b) == Quest <==> b == '?' as int
    ensures ByteType(enc, b) == Sol <==> b == '/' as int
    ensures ByteType(enc, b) == Minus <==> b == '-' as int
  {
  }

  lemma ValueClasses(enc: Encoding, b: byte)
    ensures ByteType(enc, b) == Equals <==> b == '=' as int
    ensures ByteType(enc, b) == Quot <==> b == '"' as int
    ensures ByteType(enc, b) == Apos <==> b == '\'' as int
    ensures ByteType(enc, b) == Semi <==> b == ';' as int
    ensures ByteType(enc, b) == Num <==> b == '#' as int
  {
  }

  /** The classes that only declarations use. */
  lemma DeclarationClasses(enc: Encoding, b: byte)
    ensures ByteType(enc, b) == Percnt <==> b == '%' as int
    ensures ByteType(enc, b) == Lpar <==> b == '(' as int
    ensures ByteType(enc, b) == Rpar <==> b == ')' as int
    ensures ByteType(enc, b) == Ast <==> b == '*' as int
    ensures ByteType(enc, b) == Plus <==> b == '+' as int
    ensures ByteType(enc, b) == Comma <==> b == ',' as int
    ensures ByteType(enc, b) == Verbar <==> b == '|' as int
  {
  }

  function LowerCase(b: byte): byte {
    if 'A' as int <= b <= 'Z' as int then b + 0x20 else b
  }

  /** Section 2.6 of XML 1.0: the target `xml` is a declaration, and in other letters it is reserved. */
  lemma PiTargets(target: Octets)
    ensures PiTok(target) ==
            if target == Ascii("xml") then Done(XmlDecl)
            else if |target| == 3 && forall k :: 0 <= k < 3 ==> LowerCase(target[k]) == Ascii("xml")[k] then Fail
            else Done(Pi)
  {
    if |target| == 3 {
      assert target == [target[0], target[1], target[2]];
    }
  }
}
