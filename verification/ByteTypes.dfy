/** The byte classes of the UTF-8 encodings and the checks on multi-byte characters. */
module ByteTypes {
  import opened Bytes

  datatype BT =
    | NonXml | Malform | Lt | Amp | Rsqb | Lead2 | Lead3 | Lead4 | Trail | Cr | Lf | Gt | Quot | Apos
    | Equals | Quest | Excl | Sol | Semi | Num | Lsqb | Space | NmStrt | Colon | Hex | Digit | Name
    | Minus | Other | Percnt | Lpar | Rpar | Ast | Plus | Comma | Verbar

  /**
   * A UTF-8 encoding: with or without namespaces (a colon is then an ordinary name start), of a document
   * or of entity text (a carriage return is then white space), and the name classes of multi-byte characters.
   */
  datatype Encoding = Encoding(ns: bool, internal: bool, nmStrt: Octets -> bool, nameChar: Octets -> bool)

  /** The ASCII half of the tables. */
  function AsciiType(enc: Encoding, b: byte): BT {
    if b == 0x09 || b == 0x20 then Space
    else if b == 0x0A then Lf
    else if b == 0x0D then if enc.internal then Space else Cr
    else if b < 0x20 then NonXml
    else if 0x30 <= b <= 0x39 then Digit
    else if 0x41 <= b <= 0x46 || 0x61 <= b <= 0x66 then Hex
    else if 0x47 <= b <= 0x5A || 0x67 <= b <= 0x7A || b == 0x5F then NmStrt
    else if b <= 0x2F then
      [Excl, Quot, Num, Other, Percnt, Amp, Apos, Lpar, Rpar, Ast, Plus, Comma, Minus, Name, Sol][b - 0x21]
    else if b == 0x3A then if enc.ns then Colon else NmStrt
    else if b == 0x3B then Semi
    else if b == 0x3C then Lt
    else if b == 0x3D then Equals
    else if b == 0x3E then Gt
    else if b == 0x3F then Quest
    else if b == 0x5B then Lsqb
    else if b == 0x5D then Rsqb
    else if b == 0x7C then Verbar
    else Other
  }

  function ByteType(enc: Encoding, b: byte): BT {
    if b < 0x80 then AsciiType(enc, b)
    else if b < 0xC0 then Trail
    else if b < 0xE0 then Lead2
    else if b < 0xF0 then Lead3
    else if b < 0xF5 then Lead4
    else if b < 0xFE then NonXml
    else Malform
  }

  /** The length of a character by the class of its first byte. */
  function CharSize(t: BT): (n: nat)
    ensures 1 <= n <= 4
  {
    match t
    case Lead2 => 2
    case Lead3 => 3
    case Lead4 => 4
    case _ => 1
  }

  predicate IsLead(t: BT) {
    CharSize(t) > 1
  }

  /** UTF8_INVALID2 */
  predicate Invalid2(p: Octets)
    requires |p| == 2
  {
    p[0] < 0xC2 || p[1] < 0x80 || p[1] > 0xBF
  }

  /** UTF8_INVALID3 */
  predicate Invalid3(p: Octets)
    requires |p| == 3
  {
    || p[2] < 0x80
    || (if p[0] == 0xEF && p[1] == 0xBF then p[2] > 0xBD else p[2] > 0xBF)
    || (if p[0] == 0xE0 then p[1] < 0xA0 || p[1] > 0xBF
        else p[1] < 0x80 || (if p[0] == 0xED then p[1] > 0x9F else p[1] > 0xBF))
  }

  /** UTF8_INVALID4 */
  predicate Invalid4(p: Octets)
    requires |p| == 4
  {
    || p[3] < 0x80 || p[3] > 0xBF
    || p[2] < 0x80 || p[2] > 0xBF
    || (if p[0] == 0xF0 then p[1] < 0x90 || p[1] > 0xBF
        else p[1] < 0x80 || (if p[0] == 0xF4 then p[1] > 0x8F else p[1] > 0xBF))
  }

  /** IS_INVALID_CHAR for a lead byte and its trailing bytes. */
  predicate InvalidChar(ch: Octets) {
    match |ch|
    case 2 => Invalid2(ch)
    case 3 => Invalid3(ch)
    case 4 => Invalid4(ch)
    case _ => false
  }

  /** The classes that INVALID_CASES refuses. */
  predicate Refused(t: BT, ch: Octets) {
    t == NonXml || t == Malform || t == Trail || (IsLead(t) && InvalidChar(ch))
  }

  /** CHECK_NMSTRT_CASES: no four-byte character starts a name. */
  predicate IsNmStrt(enc: Encoding, t: BT, ch: Octets) {
    t == NmStrt || t == Hex || ((t == Lead2 || t == Lead3) && enc.nmStrt(ch))
  }

  /** CHECK_NAME_CASES */
  predicate IsNameChar(enc: Encoding, t: BT, ch: Octets) {
    || t == NmStrt || t == Hex || t == Digit || t == Name || t == Minus
    || ((t == Lead2 || t == Lead3) && enc.nameChar(ch))
  }

  predicate IsBlank(t: BT) {
    t == Space || t == Cr || t == Lf
  }
}
