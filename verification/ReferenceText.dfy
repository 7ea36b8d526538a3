/** References in attribute values, written out: escaped text, numeric references and declared entities. */
module ReferenceText {
  import opened Bytes
  import opened ByteTypes
  import opened CharacterClasses
  import opened CharacterRefs
  import opened Common
  import opened ContentAutomaton
  import opened Unicode
  import opened AttributeText
  import opened TagGrammar
  import ContentGrammar

  // ----- the expansion of a text does not depend on what stands before it

  function ShiftPiece(p: Piece, n: nat): Piece {
    match p
    case Text(end) => Text(n + end)
    case White(end) => White(n + end)
    case Number(v, end) => Number(v, n + end)
    case Named(name, end) => Named(name, n + end)
    case Wrong(_) => p
  }

  lemma RefPieceShift(enc: Encoding, p: Octets, s: Octets, i: nat)
    requires i < |s|
    ensures RefPiece(Run(enc, RefOpen(InContent), p + s, |p| + i + 1), p + s, |p| + i)
         == ShiftPiece(RefPiece(Run(enc, RefOpen(InContent), s, i + 1), s, i), |p|)
  {
    hide Run, RefNumber;
    RunShift(enc, RefOpen(InContent), p, s, i + 1);
    var r := Run(enc, RefOpen(InContent), s, i + 1);
    if r.Token? {
      assert (p + s)[|p| + i..|p| + r.end] == s[i..r.end];
      assert (p + s)[|p| + i + 1..|p| + r.end - 1] == s[i + 1..r.end - 1];
    }
  }

  lemma PieceShift(enc: Encoding, p: Octets, s: Octets, i: nat)
    requires i < |s|
    ensures PieceAt(enc, p + s, |p| + i) == ShiftPiece(PieceAt(enc, s, i), |p|)
  {
    hide Run, RefPiece, ByteType;
    assert (p + s)[|p| + i] == s[i] && (i + 1 < |s| ==> (p + s)[|p| + i + 1] == s[i + 1]);
    RefPieceShift(enc, p, s, i);
  }

  lemma PlainShift(enc: Encoding, p: Octets, s: Octets, i: nat)
    requires i < |s|
    ensures Plain(enc, p + s, |p| + i) == Plain(enc, s, i)
    ensures IsEntityRef(enc, p + s, |p| + i) == IsEntityRef(enc, s, i)
  {
    hide PieceAt, Utf8Encode, Predefined;
    PieceShift(enc, p, s, i);
    var q := PieceAt(enc, s, i);
    if q.Text? {
      assert (p + s)[|p| + i..|p| + q.end] == s[i..q.end];
    }
  }

  lemma {:induction false} ExpandShift(decls: Decls, check: bool, open: set<Octets>, enc: Encoding, p: Octets, s: Octets,
                                       i: nat)
    requires i <= |s|
    ensures Expand(decls, check, open, enc, p + s, |p| + i) == Expand(decls, check, open, enc, s, i)
    decreases |s| - i
  {
    hide PieceAt, Plain, IsEntityRef, Resolve, Before;
    if i < |s| {
      PieceShift(enc, p, s, i);
      PlainShift(enc, p, s, i);
      var q := PieceAt(enc, s, i);
      if !q.Wrong? {
        ExpandShift(decls, check, open, enc, p, s, q.end);
        var far := PieceAt(enc, p + s, |p| + i);
        assert far.end == |p| + q.end;
        if IsEntityRef(enc, s, i) {
          EntityRefNamed(enc, s, i);
          assert far.name == q.name;
        }
      } else {
        WrongIsErr(enc, s, i);
      }
    }
  }

  lemma WrongIsErr(enc: Encoding, s: Octets, i: nat)
    requires i < |s| && PieceAt(enc, s, i).Wrong?
    ensures Plain(enc, s, i).Err?
  {
  }

  /** A first piece that is no general entity, and what follows it. */
  lemma PieceThen(decls: Decls, check: bool, open: set<Octets>, enc: Encoding, a: Octets, rest: Octets)
    requires a != [] && !IsEntityRef(enc, a + rest, 0)
    requires PieceAt(enc, a + rest, 0).Wrong? || PieceAt(enc, a + rest, 0).end == |a|
    ensures var plain := Plain(enc, a + rest, 0);
            Expand(decls, check, open, enc, a + rest, 0) ==
            if plain.Err? then plain else Before(plain.out, Expand(decls, check, open, enc, rest, 0))
  {
    hide PieceAt, Plain, IsEntityRef, Resolve, Before;
    if PieceAt(enc, a + rest, 0).Wrong? {
      WrongIsErr(enc, a + rest, 0);
    } else {
      ExpandShift(decls, check, open, enc, a, rest, 0);
    }
  }

  // ----- references

  /** A name in a reference; with namespaces it has no colon. */
  ghost predicate IsRefName(ns: bool, n: Octets) {
    IsNCName(n) || (!ns && IsName(ns, n))
  }

  lemma RefStart(enc: Encoding, s: Octets, i: nat)
    requires i < |s| && s[i] < 0x80
    ensures Run(enc, RefOpen(InContent), s, i) ==
            if StartsNCName(s[i]) || (s[i] == ':' as int && !enc.ns) then Run(enc, RefName(InContent), s, i + 1)
            else if s[i] == '#' as int then Run(enc, CharRefOpen(InContent), s, i + 1)
            else Invalid
  {
    hide ByteType, IsNmStrt, Run;
    AsciiStep(enc, RefOpen(InContent), s, i);
    NameClasses(enc, s[i]);
    ValueClasses(enc, s[i]);
  }

  lemma RefNameStep(enc: Encoding, s: Octets, i: nat)
    requires i < |s| && s[i] < 0x80
    ensures Run(enc, RefName(InContent), s, i) ==
            if InNCName(s[i]) || (s[i] == ':' as int && !enc.ns) then Run(enc, RefName(InContent), s, i + 1)
            else if s[i] == ';' as int then Token(EntityRef, i + 1)
            else Invalid
  {
    hide ByteType, IsNameChar, Run;
    AsciiStep(enc, RefName(InContent), s, i);
    NameClasses(enc, s[i]);
    ValueClasses(enc, s[i]);
  }

  lemma {:induction false} RefNamePasses(enc: Encoding, s: Octets, i: nat, j: nat)
    requires i <= j < |s| && s[j] == ';' as int
    requires forall k :: i <= k < j ==> InNCName(s[k]) || (s[k] == ':' as int && !enc.ns)
    ensures Run(enc, RefName(InContent), s, i) == Token(EntityRef, j + 1)
    decreases j - i
  {
    hide Run;
    RefNameStep(enc, s, i);
    if i < j {
      RefNamePasses(enc, s, i + 1, j);
    }
  }

  function EntityReference(n: Octets): Octets {
    Ascii("&") + n + Ascii(";")
  }

  lemma RefAt(enc: Encoding, s: Octets)
    requires s != [] && s[0] == '&' as int
    ensures PieceAt(enc, s, 0) == RefPiece(Run(enc, RefOpen(InContent), s, 1), s, 0)
  {
    hide Run, RefPiece;
    MarkupClasses(enc, s[0]);
  }

  /** A reference names what stands between its ampersand and its semicolon. */
  lemma NamePiece(enc: Encoding, n: Octets, rest: Octets)
    requires IsRefName(enc.ns, n)
    ensures PieceAt(enc, EntityReference(n) + rest, 0) == Named(n, |n| + 2)
  {
    hide Run, RefNumber, ByteType, PieceAt;
    var s := EntityReference(n) + rest;
    assert forall k :: 0 <= k < |n| ==> s[k + 1] == n[k];
    assert forall k :: 2 <= k <= |n| ==> s[k] == n[k - 1];
    RefStart(enc, s, 1);
    RefNamePasses(enc, s, 2, |n| + 1);
    RefAt(enc, s);
    assert s[1..|n| + 1] == n;
  }

  /** Section 4.6 of XML 1.0: the five characters are written as references. */
  function Reference(b: byte): (r: Octets)
    ensures r != []
  {
    if b == '<' as int then Ascii("&lt;")
    else if b == '>' as int then Ascii("&gt;")
    else if b == '&' as int then Ascii("&amp;")
    else if b == '"' as int then Ascii("&quot;")
    else if b == '\'' as int then Ascii("&apos;")
    else [b]
  }

  function Escaped(s: Octets): Octets {
    if s == [] then [] else Reference(s[0]) + Escaped(s[1..])
  }

  /** Section 3.3.3 of XML 1.0: white space is replaced by a space, and so is a line end of two characters. */
  function Blanked(enc: Encoding, s: Octets): Octets {
    if s == [] then []
    else if s[0] == 0xD && !enc.internal && |s| > 1 && s[1] == 0xA then [0x20] + Blanked(enc, s[2..])
    else if s[0] == 0x9 || s[0] == 0xA || s[0] == 0xD then [0x20] + Blanked(enc, s[1..])
    else [s[0]] + Blanked(enc, s[1..])
  }

  lemma HighReference(b: byte)
    requires 0x80 <= b
    ensures Reference(b) == [b]
  {
  }

  lemma Rejoin(a: Octets, s: Octets)
    requires a != []
    ensures [a[0]] + (a[1..] + s) == a + s
  {
  }

  lemma {:induction false} EscapedHigh(a: Octets, s: Octets)
    requires forall k :: 0 <= k < |a| ==> 0x80 <= a[k]
    ensures Escaped(a + s) == a + Escaped(s)
  {
    if a == [] {
      assert a + s == s;
    } else {
      hide Reference;
      HighReference(a[0]);
      EscapedHigh(a[1..], s);
      assert (a + s)[0] == a[0] && (a + s)[1..] == a[1..] + s;
      Rejoin(a, Escaped(s));
    }
  }

  lemma {:induction false} BlankedHigh(enc: Encoding, a: Octets, s: Octets)
    requires forall k :: 0 <= k < |a| ==> 0x80 <= a[k]
    ensures Blanked(enc, a + s) == a + Blanked(enc, s)
  {
    if a == [] {
      assert a + s == s;
    } else {
      BlankedHigh(enc, a[1..], s);
      assert (a + s)[0] == a[0] && (a + s)[1..] == a[1..] + s;
      Rejoin(a, Blanked(enc, s));
    }
  }

  lemma ThreeNames()
    ensures Predefined(Ascii("lt")) == Some('<' as int) && Ascii("&") + Ascii("lt") + Ascii(";") == Ascii("&lt;")
    ensures Predefined(Ascii("gt")) == Some('>' as int) && Ascii("&") + Ascii("gt") + Ascii(";") == Ascii("&gt;")
    ensures Predefined(Ascii("amp")) == Some('&' as int) && Ascii("&") + Ascii("amp") + Ascii(";") == Ascii("&amp;")
  {
    assert Ascii("lt") == [0x6C, 0x74] && Ascii("gt") == [0x67, 0x74] && Ascii("amp") == [0x61, 0x6D, 0x70];
  }

  lemma QuoteNames()
    ensures Predefined(Ascii("quot")) == Some('"' as int) && Ascii("&") + Ascii("quot") + Ascii(";") == Ascii("&quot;")
    ensures Predefined(Ascii("apos")) == Some('\'' as int)
    ensures Ascii("&") + Ascii("apos") + Ascii(";") == Ascii("&apos;")
  {
    assert Ascii("quot") == [0x71, 0x75, 0x6F, 0x74];
    assert Ascii("apos") == [0x61, 0x70, 0x6F, 0x73];
  }

  /** The reference of one of the five characters stands for it. */
  lemma FivePieces(enc: Encoding, b: byte, rest: Octets)
    requires Reference(b) != [b]
    ensures var s := Reference(b) + rest;
            PieceAt(enc, s, 0).Named? && PieceAt(enc, s, 0).end == |Reference(b)|
            && Plain(enc, s, 0) == Ok([b]) && !IsEntityRef(enc, s, 0)
  {
    hide PieceAt, Predefined;
    ThreeNames();
    QuoteNames();
    Entity(enc, if b == '<' as int then "lt"
                else if b == '>' as int then "gt"
                else if b == '&' as int then "amp"
                else if b == '"' as int then "quot"
                else "apos", rest);
  }

  lemma Entity(enc: Encoding, name: string, rest: Octets)
    requires name != "" && forall k :: 0 <= k < |name| ==> 'a' <= name[k] <= 'z'
    ensures PieceAt(enc, Ascii("&") + Ascii(name) + Ascii(";") + rest, 0) == Named(Ascii(name), |name| + 2)
  {
    hide PieceAt;
    NamePiece(enc, Ascii(name), rest);
  }

  predicate IsWhite(b: byte) {
    b == 0x20 || b == 0x9 || b == 0xA || b == 0xD
  }

  lemma TextPiece(enc: Encoding, s: Octets, n: nat)
    requires n <= |s| && IsChar(s[..n]) && n == CharSize(ByteType(enc, s[0]))
    requires !IsWhite(s[0]) && s[0] != '&' as int && s[0] != '<' as int
    ensures 1 <= n && PieceAt(enc, s, 0) == Text(n) && Plain(enc, s, 0) == Ok(s[..n]) && !IsEntityRef(enc, s, 0)
  {
    hide ByteType, IsChar;
    MarkupClasses(enc, s[0]);
    BlankClasses(enc, s[0]);
    SpaceClass(enc, s[0]);
  }

  lemma SpaceClass(enc: Encoding, b: byte)
    ensures ByteType(enc, b) == Space <==> b == 0x20 || b == 0x9 || (b == 0xD && enc.internal)
  {
  }

  lemma WhitePiece(enc: Encoding, s: Octets)
    requires s != [] && IsWhite(s[0])
    ensures PieceAt(enc, s, 0) == White(if s[0] == 0xD && !enc.internal && |s| > 1 && s[1] == 0xA then 2 else 1)
    ensures Plain(enc, s, 0) == Ok([0x20]) && !IsEntityRef(enc, s, 0)
  {
    hide ByteType;
    BlankClasses(enc, s[0]);
    SpaceClass(enc, s[0]);
    if |s| > 1 {
      BlankClasses(enc, s[1]);
    }
  }

  /** The first bytes of a text and of its escaped form, and what they expand to. */
  lemma EscapedFirst(decls: Decls, check: bool, open: set<Octets>, enc: Encoding, s: Octets, a: Octets, n: nat)
    returns (out: Octets)
    requires 1 <= n <= |s| && a != [] && Escaped(s) == a + Escaped(s[n..])
    requires !IsEntityRef(enc, a + Escaped(s[n..]), 0) && Plain(enc, a + Escaped(s[n..]), 0).Ok?
    requires !PieceAt(enc, a + Escaped(s[n..]), 0).Wrong? && PieceAt(enc, a + Escaped(s[n..]), 0).end == |a|
    ensures out == Plain(enc, Escaped(s), 0).out
    ensures Expand(decls, check, open, enc, Escaped(s), 0) ==
            Before(out, Expand(decls, check, open, enc, Escaped(s[n..]), 0))
  {
    hide PieceAt, Plain, IsEntityRef, Expand, Escaped, Before;
    PieceThen(decls, check, open, enc, a, Escaped(s[n..]));
    out := Plain(enc, Escaped(s), 0).out;
  }

  /** A character of more than one byte. */
  lemma EscapedLong(decls: Decls, check: bool, open: set<Octets>, enc: Encoding, s: Octets, n: nat)
    requires 1 < n <= |s| && IsChar(s[..n]) && n == CharSize(ByteType(enc, s[0]))
    ensures Expand(decls, check, open, enc, Escaped(s), 0) ==
            Before(s[..n], Expand(decls, check, open, enc, Escaped(s[n..]), 0))
    ensures Blanked(enc, s) == s[..n] + Blanked(enc, s[n..])
  {
    hide PieceAt, Plain, IsEntityRef, Expand, IsChar, ByteType, Before, Escaped, Blanked;
    ContentGrammar.CharBytes(enc, s, n);
    assert s == s[..n] + s[n..];
    EscapedHigh(s[..n], s[n..]);
    BlankedHigh(enc, s[..n], s[n..]);
    assert Escaped(s)[..n] == s[..n];
    TextPiece(enc, Escaped(s), n);
    var out := EscapedFirst(decls, check, open, enc, s, s[..n], n);
  }

  lemma EscapedStep(s: Octets)
    requires s != []
    ensures Escaped(s) == Reference(s[0]) + Escaped(s[1..])
    ensures Escaped(s)[0] == 0xA <==> s[0] == 0xA
  {
    hide Escaped;
    EscapedIs(s);
  }

  lemma EscapedIs(s: Octets)
    requires s != []
    ensures Escaped(s) == Reference(s[0]) + Escaped(s[1..])
  {
  }

  /** One of the five characters. */
  lemma EscapedFive(decls: Decls, check: bool, open: set<Octets>, enc: Encoding, s: Octets)
    requires s != [] && Reference(s[0]) != [s[0]]
    ensures Expand(decls, check, open, enc, Escaped(s), 0) ==
            Before([s[0]], Expand(decls, check, open, enc, Escaped(s[1..]), 0))
    ensures Blanked(enc, s) == [s[0]] + Blanked(enc, s[1..])
  {
    hide PieceAt, Plain, IsEntityRef, Expand, Before, Escaped;
    EscapedIs(s);
    FivePieces(enc, s[0], Escaped(s[1..]));
    var out := EscapedFirst(decls, check, open, enc, s, Reference(s[0]), 1);
  }

  /** Any other character of one byte. */
  lemma EscapedPlain(decls: Decls, check: bool, open: set<Octets>, enc: Encoding, s: Octets)
    requires s != [] && Reference(s[0]) == [s[0]] && !IsWhite(s[0])
    requires IsChar(s[..1]) && CharSize(ByteType(enc, s[0])) == 1
    ensures Expand(decls, check, open, enc, Escaped(s), 0) ==
            Before([s[0]], Expand(decls, check, open, enc, Escaped(s[1..]), 0))
    ensures Blanked(enc, s) == [s[0]] + Blanked(enc, s[1..])
  {
    hide PieceAt, Plain, IsEntityRef, Expand, IsChar, ByteType, Before, Escaped;
    EscapedIs(s);
    assert Escaped(s)[..1] == s[..1] == [s[0]];
    TextPiece(enc, Escaped(s), 1);
    var out := EscapedFirst(decls, check, open, enc, s, [s[0]], 1);
  }

  /** White space; a carriage return takes a line feed with it. */
  lemma EscapedWhite(decls: Decls, check: bool, open: set<Octets>, enc: Encoding, s: Octets) returns (n: nat)
    requires s != [] && IsWhite(s[0])
    ensures 1 <= n <= |s| && n == if s[0] == 0xD && !enc.internal && |s| > 1 && s[1] == 0xA then 2 else 1
    ensures Expand(decls, check, open, enc, Escaped(s), 0) ==
            Before([0x20], Expand(decls, check, open, enc, Escaped(s[n..]), 0))
    ensures Blanked(enc, s) == [0x20] + Blanked(enc, s[n..])
  {
    hide PieceAt, Plain, IsEntityRef, Expand, Before, Escaped;
    n := if s[0] == 0xD && !enc.internal && |s| > 1 && s[1] == 0xA then 2 else 1;
    EscapedIs(s);
    if |s| > 1 {
      EscapedStep(s[1..]);
      assert s[1..][1..] == s[2..];
    } else {
      assert Escaped(s[1..]) == [] by {
        NothingEscaped();
      }
    }
    WhitePiece(enc, Escaped(s));
    assert Escaped(s) == s[..n] + Escaped(s[n..]);
    var out := EscapedFirst(decls, check, open, enc, s, s[..n], n);
  }

  lemma NothingEscaped()
    ensures Escaped([]) == []
  {
  }

  /**
   * An escaped text expands to the text, with its white space turned into spaces: for all texts of legal characters,
   * whatever entities are declared or open.
   */
  lemma {:induction false} EscapedExpands(decls: Decls, check: bool, open: set<Octets>, enc: Encoding, s: Octets)
    requires IsText(s)
    ensures Expand(decls, check, open, enc, Escaped(s), 0) == Ok(Blanked(enc, s))
    decreases |s|
  {
    hide Expand, IsChar, ByteType, Escaped, Reference, Blanked, IsText;
    if s == [] {
      NothingExpands(decls, check, open, enc);
    } else {
      ContentGrammar.TextStep(enc, s);
      var n: nat := CharSize(ByteType(enc, s[0]));
      if n > 1 {
        EscapedLong(decls, check, open, enc, s, n);
      } else if IsWhite(s[0]) {
        n := EscapedWhite(decls, check, open, enc, s);
        if n == 2 {
          ContentGrammar.LineFeed(enc, s[1..]);
          ContentGrammar.TextStep(enc, s[1..]);
          assert s[1..][1..] == s[2..];
        }
      } else if Reference(s[0]) != [s[0]] {
        EscapedFive(decls, check, open, enc, s);
      } else {
        EscapedPlain(decls, check, open, enc, s);
      }
      EscapedExpands(decls, check, open, enc, s[n..]);
    }
  }

  lemma NothingExpands(decls: Decls, check: bool, open: set<Octets>, enc: Encoding)
    ensures Expand(decls, check, open, enc, Escaped([]), 0) == Ok(Blanked(enc, []))
  {
  }

  lemma {:induction false} NothingBlanked(enc: Encoding, s: Octets)
    requires 0x9 !in s && 0xA !in s && 0xD !in s
    ensures Blanked(enc, s) == s
  {
    if s != [] {
      NothingBlanked(enc, s[1..]);
      assert s == [s[0]] + s[1..];
    }
  }

  /** Without other white space than spaces, the text itself comes back. */
  lemma EscapedComesBack(decls: Decls, check: bool, open: set<Octets>, enc: Encoding, s: Octets)
    requires IsText(s) && 0x9 !in s && 0xA !in s && 0xD !in s
    ensures Expand(decls, check, open, enc, Escaped(s), 0) == Ok(s)
  {
    hide Expand, IsText, Escaped, Blanked;
    EscapedExpands(decls, check, open, enc, s);
    NothingBlanked(enc, s);
  }

  // ----- numeric references

  predicate DigitFor(c: byte, d: nat) {
    || (d < 10 && c == '0' as int + d)
    || (10 <= d < 16 && (c == 'a' as int + (d - 10) || c == 'A' as int + (d - 10)))
  }

  /** The digits of a number; zeros may come first. */
  predicate IsNumeral(ds: Octets, base: nat, n: nat)
    requires base >= 2
    decreases |ds|
  {
    && ds != [] && DigitFor(ds[|ds| - 1], n % base)
    && if |ds| == 1 then n < base else IsNumeral(ds[..|ds| - 1], base, n / base)
  }

  predicate IsHexDigit(b: byte) {
    IsDigit(b) || 'a' as int <= b <= 'f' as int || 'A' as int <= b <= 'F' as int
  }

  lemma {:induction false} NumeralValue(ds: Octets, base: nat, n: nat)
    requires (base == 10 || base == 16) && IsNumeral(ds, base, n)
    ensures ds != [] && DigitsValue(ds, base) == n
    ensures forall k :: 0 <= k < |ds| ==> if base == 10 then IsDigit(ds[k]) else IsHexDigit(ds[k])
    decreases |ds|
  {
    var front := ds[..|ds| - 1];
    if |ds| > 1 {
      NumeralValue(front, base, n / base);
      assert forall k :: 0 <= k < |front| ==> ds[k] == front[k];
    } else {
      assert front == [];
    }
  }

  /** Every string of digits is the numeral of a number. */
  lemma {:induction false} EveryNumeral(ds: Octets, base: nat) returns (n: nat)
    requires base == 10 || base == 16
    requires ds != [] && forall k :: 0 <= k < |ds| ==> if base == 10 then IsDigit(ds[k]) else IsHexDigit(ds[k])
    ensures IsNumeral(ds, base, n)
    decreases |ds|
  {
    var c := ds[|ds| - 1];
    var d := if IsDigit(c) then c - '0' as int else if c < 'a' as int then c - 'A' as int + 10 else c - 'a' as int + 10;
    assert DigitFor(c, d) && d < base;
    if |ds| == 1 {
      n := d;
    } else {
      var m := EveryNumeral(ds[..|ds| - 1], base);
      n := m * base + d;
      assert n / base == m && n % base == d;
    }
  }

  lemma DecimalStep(enc: Encoding, s: Octets, i: nat)
    requires i < |s| && s[i] < 0x80
    ensures IsDigit(s[i]) ==> Run(enc, CharRefOpen(InContent), s, i) == Run(enc, Decimal(InContent), s, i + 1)
    ensures IsDigit(s[i]) ==> Run(enc, Decimal(InContent), s, i) == Run(enc, Decimal(InContent), s, i + 1)
    ensures s[i] == 'x' as int ==> Run(enc, CharRefOpen(InContent), s, i) == Run(enc, HexOpen(InContent), s, i + 1)
    ensures s[i] == ';' as int ==> Run(enc, Decimal(InContent), s, i) == Token(CharRef, i + 1)
  {
    hide ByteType, Run;
    AsciiStep(enc, CharRefOpen(InContent), s, i);
    AsciiStep(enc, Decimal(InContent), s, i);
    DigitClasses(enc, s[i]);
    ValueClasses(enc, s[i]);
  }

  lemma HexStep(enc: Encoding, s: Octets, i: nat)
    requires i < |s| && s[i] < 0x80
    ensures IsHexDigit(s[i]) ==> Run(enc, HexOpen(InContent), s, i) == Run(enc, Hexadecimal(InContent), s, i + 1)
    ensures IsHexDigit(s[i]) ==> Run(enc, Hexadecimal(InContent), s, i) == Run(enc, Hexadecimal(InContent), s, i + 1)
    ensures s[i] == ';' as int ==> Run(enc, Hexadecimal(InContent), s, i) == Token(CharRef, i + 1)
  {
    hide ByteType, Run;
    AsciiStep(enc, HexOpen(InContent), s, i);
    AsciiStep(enc, Hexadecimal(InContent), s, i);
    DigitClasses(enc, s[i]);
    ValueClasses(enc, s[i]);
  }

  lemma {:induction false} DigitsPass(enc: Encoding, hex: bool, s: Octets, i: nat, j: nat)
    requires i <= j < |s| && s[j] == ';' as int
    requires forall k :: i <= k < j ==> if hex then IsHexDigit(s[k]) else IsDigit(s[k])
    ensures Run(enc, if hex then Hexadecimal(InContent) else Decimal(InContent), s, i) == Token(CharRef, j + 1)
    decreases j - i
  {
    hide Run;
    DecimalStep(enc, s, i);
    HexStep(enc, s, i);
    if i < j {
      DigitsPass(enc, hex, s, i + 1, j);
    }
  }

  function NumericReference(hex: bool, ds: Octets): Octets {
    (if hex then Ascii("&#x") else Ascii("&#")) + ds + Ascii(";")
  }

  lemma NumericRun(enc: Encoding, hex: bool, ds: Octets, rest: Octets)
    requires ds != [] && forall k :: 0 <= k < |ds| ==> if hex then IsHexDigit(ds[k]) else IsDigit(ds[k])
    ensures var s := NumericReference(hex, ds) + rest;
            Run(enc, RefOpen(InContent), s, 1) == Token(CharRef, |NumericReference(hex, ds)|)
  {
    hide Run;
    var start := if hex then 3 else 2;
    var s := NumericReference(hex, ds) + rest;
    assert forall k :: 0 <= k < |ds| ==> s[start + k] == ds[k];
    assert forall k :: start < k < start + |ds| ==> s[k] == ds[k - start];
    RefStart(enc, s, 1);
    DecimalStep(enc, s, 2);
    if hex {
      HexStep(enc, s, 3);
    }
    DigitsPass(enc, hex, s, start + 1, start + |ds|);
  }

  /** The number that a numeric reference denotes, if it is a legal character. */
  lemma NumberPiece(enc: Encoding, hex: bool, ds: Octets, n: nat, rest: Octets)
    requires IsNumeral(ds, if hex then 16 else 10, n)
    ensures PieceAt(enc, NumericReference(hex, ds) + rest, 0) ==
            Number(if LegalChar(n) then Some(n) else None, |NumericReference(hex, ds)|)
  {
    hide Run, PieceAt, DigitsValue, IsNumeral, Allowed, LegalChar;
    NumeralValue(ds, if hex then 16 else 10, n);
    NumericRun(enc, hex, ds, rest);
    var ref := NumericReference(hex, ds);
    RefAt(enc, ref + rest);
    assert (ref + rest)[..|ref|] == ref;
    assert ref[if hex then 3 else 2..|ref| - 1] == ds;
    AllowedIsLegal(n);
  }

  /**
   * Section 4.1 of XML 1.0: a numeric reference, in decimal or hexadecimal digits of either case, with any zeros
   * before them, stands for the bytes that encode its number; it is refused exactly when this is no legal character.
   */
  lemma NumericReferenceExpands(decls: Decls, check: bool, open: set<Octets>, enc: Encoding, hex: bool, ds: Octets, n: nat,
                                rest: Octets) returns (c: Octets)
    requires IsNumeral(ds, if hex then 16 else 10, n)
    ensures LegalChar(n) ==> Encodes(c, n) && Expand(decls, check, open, enc, NumericReference(hex, ds) + rest, 0) ==
                                          Before(c, Expand(decls, check, open, enc, rest, 0))
    ensures !LegalChar(n) ==> Expand(decls, check, open, enc, NumericReference(hex, ds) + rest, 0) == Err(BadCharRef)
  {
    hide PieceAt, Expand, Before, Utf8Encode, Encodes, IsNumeral, Allowed;
    var ref := NumericReference(hex, ds);
    NumberPiece(enc, hex, ds, n, rest);
    PieceThen(decls, check, open, enc, ref, rest);
    c := [];
    if LegalChar(n) {
      AllowedIsLegal(n);
      Utf8EncodeEncodes(n);
      c := Utf8Encode(n);
    }
  }

  // ----- references to general entities

  /** The names of section 4.6 of XML 1.0. */
  ghost predicate IsPredefined(n: Octets) {
    n in {Ascii("lt"), Ascii("gt"), Ascii("amp"), Ascii("quot"), Ascii("apos")}
  }

  lemma PredefinedMeans(n: Octets)
    ensures Predefined(n).Some? <==> IsPredefined(n)
  {
    assert Ascii("lt") == [0x6C, 0x74] && Ascii("gt") == [0x67, 0x74] && Ascii("amp") == [0x61, 0x6D, 0x70];
    assert Ascii("quot") == [0x71, 0x75, 0x6F, 0x74];
    assert Ascii("apos") == [0x61, 0x70, 0x6F, 0x73];
  }

  /**
   * Any other entity: with check it must be declared, and in the internal subset; it may not be open, unparsed or
   * external. Without check an undeclared one stands for nothing. Its text is expanded while it is open.
   */
  lemma EntityExpands(decls: Decls, check: bool, open: set<Octets>, enc: Encoding, n: Octets, rest: Octets)
    requires IsRefName(enc.ns, n) && !IsPredefined(n)
    ensures var r, after := Expand(decls, check, open, enc, EntityReference(n) + rest, 0),
                            Expand(decls, check, open, enc, rest, 0);
            && (n !in decls && check ==> r == Err(UndefinedEntity))
            && (n !in decls && !check ==> r == after)
            && (n in decls && check && !decls[n].isInternal ==> r == Err(DeclaredInPe))
            && (n in decls && (check ==> decls[n].isInternal) ==>
                  if n in open then r == Err(RecursiveRef)
                  else if decls[n].notation then r == Err(BinaryRef)
                  else if decls[n].text.None? then r == Err(ExternalRef)
                  else
                    var inner := Expand(decls, check, open + {n}, enc.(internal := true), decls[n].text.value, 0);
                    r == if inner.Err? then inner else Before(inner.out, after))
  {
    hide PieceAt, Predefined, IsPredefined, IsRefName, Before, ByteType;
    var ref := EntityReference(n);
    NamePiece(enc, n, rest);
    PredefinedMeans(n);
    ExpandShift(decls, check, open, enc, ref, rest, 0);
    var r := Expand(decls, check, open, enc, ref + rest, 0);
    assert Plain(enc, ref + rest, 0) == Ok([]) && IsEntityRef(enc, ref + rest, 0);
  }
}
