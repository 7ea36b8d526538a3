/** What tags, elements and CDATA sections mean, as whole inputs. */
module TagGrammar {
  import opened Bytes
  import opened ByteTypes
  import opened CharacterClasses
  import opened ContentAutomaton
  import opened ContentChunks
  import opened ContentGrammar
  import opened Unicode
  import AttributeList

  // ----- names of one-byte characters

  ghost predicate IsNCName(n: Octets) {
    n != [] && StartsNCName(n[0]) && forall k :: 0 <= k < |n| ==> InNCName(n[k])
  }

  /** Production [7] of Namespaces in XML 1.0, QName; a name of XML 1.0 without namespaces. */
  ghost predicate IsName(ns: bool, n: Octets) {
    if ns then
      IsNCName(n) || exists k :: 0 <= k < |n| && n[k] == ':' as int && IsNCName(n[..k]) && IsNCName(n[k + 1..])
    else
      && n != [] && (StartsNCName(n[0]) || n[0] == ':' as int)
      && forall k :: 0 <= k < |n| ==> InNCName(n[k]) || n[k] == ':' as int
  }

  /** What may follow in a name that has a colon or none yet. */
  predicate NameRest(ns: bool, colon: bool, t: Octets)
    decreases |t|
  {
    || t == []
    || ((InNCName(t[0]) || (t[0] == ':' as int && !ns)) && NameRest(ns, colon, t[1..]))
    || (t[0] == ':' as int && ns && !colon && |t| > 1 && StartsNCName(t[1]) && NameRest(ns, true, t[2..]))
  }

  lemma {:induction false} RestPlain(ns: bool, colon: bool, t: Octets)
    requires !ns || colon
    ensures NameRest(ns, colon, t) <==>
            forall k :: 0 <= k < |t| ==> InNCName(t[k]) || (t[k] == ':' as int && !ns)
  {
    if t != [] {
      RestPlain(ns, colon, t[1..]);
      assert forall k :: 1 <= k < |t| ==> t[k] == t[1..][k - 1];
    }
  }

  ghost predicate ColonAt(t: Octets, k: nat) {
    && k < |t| && t[k] == ':' as int && IsNCName(t[k + 1..])
    && forall j :: 0 <= j < k ==> InNCName(t[j])
  }

  ghost predicate HasColon(t: Octets) {
    exists k :: ColonAt(t, k)
  }

  ghost predicate AllInName(t: Octets) {
    forall k :: 0 <= k < |t| ==> InNCName(t[k])
  }

  /** Whether the first byte is the colon, or it comes later. */
  lemma HasColonStep(t: Octets)
    requires t != []
    ensures HasColon(t) <==> (t[0] == ':' as int && IsNCName(t[1..])) || (InNCName(t[0]) && HasColon(t[1..]))
  {
    hide IsNCName;
    var u := t[1..];
    assert forall k :: 1 <= k < |t| ==> t[k] == u[k - 1];
    if HasColon(t) {
      var k: nat :| ColonAt(t, k);
      if k > 0 {
        assert t[k + 1..] == u[k..];
        assert ColonAt(u, k - 1);
      }
    }
    if InNCName(t[0]) && HasColon(u) {
      var k: nat :| ColonAt(u, k);
      assert t[k + 2..] == u[k + 1..];
      assert ColonAt(t, k + 1);
    }
    if t[0] == ':' as int && IsNCName(u) {
      assert ColonAt(t, 0);
    }
  }

  lemma AllInNameStep(t: Octets)
    requires t != []
    ensures AllInName(t) <==> InNCName(t[0]) && AllInName(t[1..])
    ensures IsNCName(t) <==> StartsNCName(t[0]) && AllInName(t[1..])
  {
    assert forall k :: 1 <= k < |t| ==> t[k] == t[1..][k - 1];
  }

  lemma {:induction false} RestColon(t: Octets)
    ensures NameRest(true, false, t) <==> AllInName(t) || HasColon(t)
    decreases |t|
  {
    hide HasColon, AllInName, IsNCName;
    if t == [] {
      assert AllInName(t) by {
        NoneInName();
      }
    } else {
      RestColon(t[1..]);
      HasColonStep(t);
      AllInNameStep(t);
      if |t| > 1 {
        AllInNameStep(t[1..]);
        assert t[1..][1..] == t[2..];
        RestAll(t[2..]);
      } else {
        NoName();
      }
    }
  }

  lemma NoneInName()
    ensures AllInName([])
  {
  }

  lemma NoName()
    ensures !IsNCName([])
  {
  }

  lemma RestAll(t: Octets)
    ensures NameRest(true, true, t) <==> AllInName(t)
  {
    hide NameRest;
    RestPlain(true, true, t);
  }

  /** A name is a start and what may follow. */
  lemma NameIs(ns: bool, n: Octets)
    ensures IsName(ns, n) <==>
            n != [] && (StartsNCName(n[0]) || (n[0] == ':' as int && !ns)) && NameRest(ns, false, n[1..])
  {
    hide NameRest, HasColon;
    if n != [] {
      var t := n[1..];
      if ns {
        RestColon(t);
        AllInNameStep(n);
        if IsName(true, n) && !IsNCName(n) {
          QNameSplits(n);
        } else if StartsNCName(n[0]) && HasColon(t) {
          QNameJoins(n);
        }
      } else {
        RestPlain(ns, false, t);
        assert forall k :: 1 <= k < |n| ==> n[k] == t[k - 1];
      }
    }
  }

  lemma QNameSplits(n: Octets)
    requires IsName(true, n) && !IsNCName(n)
    ensures StartsNCName(n[0]) && HasColon(n[1..])
  {
    var k: int :| 0 <= k < |n| && n[k] == ':' as int && IsNCName(n[..k]) && IsNCName(n[k + 1..]);
    var t := n[1..];
    assert t[k - 1 + 1..] == n[k + 1..];
    assert forall j :: 0 <= j < k ==> n[..k][j] == n[j];
    assert ColonAt(t, k - 1);
  }

  lemma QNameJoins(n: Octets)
    requires n != [] && StartsNCName(n[0]) && HasColon(n[1..])
    ensures IsName(true, n)
  {
    var t := n[1..];
    var k: nat :| ColonAt(t, k);
    assert t[k + 1..] == n[k + 2..] && n[k + 1] == t[k];
    assert forall j :: 1 <= j < k + 1 ==> n[j] == t[j - 1];
    assert IsNCName(n[..k + 1]);
  }

  // ----- the automaton on one-byte characters

  function Moved(enc: Encoding, m: Move, s: Octets, i: nat): Scan
    requires i <= |s|
  {
    match m
    case Fail => Invalid
    case Done(tok) => Token(tok, i)
    case Go(to) => Run(enc, to, s, i)
  }

  lemma AsciiStep(enc: Encoding, st: State, s: Octets, i: nat)
    requires i < |s| && s[i] < 0x80
    ensures Run(enc, st, s, i) == Moved(enc, Step(enc, st, ByteType(enc, s[i]), [s[i]]), s, i + 1)
  {
    hide Step;
    assert s[i..i + 1] == [s[i]];
  }

  lemma StartNameStep(enc: Encoding, colon: bool, s: Octets, i: nat)
    requires i < |s| && s[i] < 0x80
    ensures Run(enc, StartName(colon), s, i) ==
            if InNCName(s[i]) || (s[i] == ':' as int && !enc.ns) then Run(enc, StartName(colon), s, i + 1)
            else if s[i] == ':' as int then if colon then Invalid else Run(enc, StartColon, s, i + 1)
            else if s[i] == 0x20 || s[i] == 0x9 || s[i] == 0xA || s[i] == 0xD then Run(enc, StartSpace, s, i + 1)
            else if s[i] == '>' as int then Token(StartTagNoAtts, i + 1)
            else if s[i] == '/' as int then Run(enc, Slash(EmptyElementNoAtts), s, i + 1)
            else Invalid
  {
    hide ByteType, IsNameChar, Run;
    AsciiStep(enc, StartName(colon), s, i);
    NameClasses(enc, s[i]);
    BlankClasses(enc, s[i]);
    MarkupClasses(enc, s[i]);
  }

  lemma StartColonStep(enc: Encoding, s: Octets, i: nat)
    requires i < |s| && s[i] < 0x80 && enc.ns
    ensures Run(enc, StartColon, s, i) == if StartsNCName(s[i]) then Run(enc, StartName(true), s, i + 1) else Invalid
  {
    hide ByteType, IsNmStrt, Run;
    AsciiStep(enc, StartColon, s, i);
    NameClasses(enc, s[i]);
  }

  lemma SlashStep(enc: Encoding, empty: Tok, s: Octets, i: nat)
    requires i < |s| && s[i] < 0x80
    ensures Run(enc, Slash(empty), s, i) == if s[i] == '>' as int then Token(empty, i + 1) else Invalid
  {
    hide ByteType, Run;
    AsciiStep(enc, Slash(empty), s, i);
    MarkupClasses(enc, s[i]);
  }

  lemma AfterLtStep(enc: Encoding, s: Octets, i: nat)
    requires i < |s| && s[i] < 0x80
    ensures Run(enc, AfterLt, s, i) ==
            if StartsNCName(s[i]) || (s[i] == ':' as int && !enc.ns) then Run(enc, StartName(false), s, i + 1)
            else if s[i] == '!' as int then Run(enc, AfterExcl, s, i + 1)
            else if s[i] == '?' as int then Run(enc, PiOpen, s, i + 1)
            else if s[i] == '/' as int then Run(enc, EndOpen, s, i + 1)
            else Invalid
  {
    hide ByteType, IsNmStrt, Run;
    AsciiStep(enc, AfterLt, s, i);
    NameClasses(enc, s[i]);
    MarkupClasses(enc, s[i]);
  }

  /** The rest of a name is read to its end. */
  lemma {:induction false} NamePasses(enc: Encoding, colon: bool, s: Octets, i: nat, j: nat) returns (had: bool)
    requires i <= j <= |s| && NameRest(enc.ns, colon, s[i..j]) && forall k :: i <= k < j ==> s[k] < 0x80
    ensures Run(enc, StartName(colon), s, i) == Run(enc, StartName(had), s, j)
    decreases j - i
  {
    hide Run;
    had := colon;
    if i < j {
      StartNameStep(enc, colon, s, i);
      assert s[i..j][1..] == s[i + 1..j];
      if InNCName(s[i]) || !enc.ns {
        had := NamePasses(enc, colon, s, i + 1, j);
      } else {
        StartColonStep(enc, s, i + 1);
        assert s[i..j][2..] == s[i + 2..j];
        had := NamePasses(enc, true, s, i + 2, j);
      }
    }
  }

  /** What is no rest of a name is not read as the name of the empty element that ends here. */
  lemma {:induction false} NameFails(enc: Encoding, colon: bool, s: Octets, i: nat)
    requires i + 2 <= |s| && s[|s| - 2] == '/' as int && s[|s| - 1] == '>' as int
    requires forall k :: i <= k < |s| ==> s[k] < 0x80 && s[k] !in {0x20, 0x9, 0xA, 0xD}
    requires !NameRest(enc.ns, colon, s[i..|s| - 2])
    ensures Run(enc, StartName(colon), s, i) != Token(EmptyElementNoAtts, |s|)
    decreases |s| - i
  {
    hide Run;
    var t := s[i..|s| - 2];
    StartNameStep(enc, colon, s, i);
    assert t[1..] == s[i + 1..|s| - 2];
    if InNCName(s[i]) || (s[i] == ':' as int && !enc.ns) {
      NameFails(enc, colon, s, i + 1);
    } else if s[i] == ':' as int && !colon {
      StartColonStep(enc, s, i + 1);
      if |t| > 1 && StartsNCName(s[i + 1]) {
        assert t[2..] == s[i + 2..|s| - 2];
        NameFails(enc, true, s, i + 2);
      }
    } else if s[i] == '/' as int {
      SlashStep(enc, EmptyElementNoAtts, s, i + 1);
    }
  }

  // ----- whole inputs

  lemma TagAtom(enc: Encoding, s: Octets)
    requires s != [] && s[0] == '<' as int
    ensures AtomAt(enc, Content, s, 0) == MarkupAtom(Run(enc, AfterLt, s, 1), s, 0)
  {
    hide Run;
    MarkupClasses(enc, s[0]);
  }

  function EmptyTag(n: Octets): Octets {
    Ascii("<") + n + Ascii("/>")
  }

  /** The tag is read to its end exactly when it holds a name. */
  lemma EmptyRun(enc: Encoding, n: Octets)
    requires forall k :: 0 <= k < |n| ==> n[k] < 0x80 && n[k] !in {0x20, 0x9, 0xA, 0xD}
    ensures Run(enc, AfterLt, EmptyTag(n), 1) == Token(EmptyElementNoAtts, |n| + 3) <==> IsName(enc.ns, n)
  {
    hide Run, IsName, NameRest;
    var s := EmptyTag(n);
    assert forall k :: 0 <= k < |n| ==> s[k + 1] == n[k];
    assert forall k :: 2 <= k <= |n| ==> s[k] == n[k - 1];
    NameIs(enc.ns, n);
    AfterLtStep(enc, s, 1);
    if n != [] && (StartsNCName(n[0]) || (n[0] == ':' as int && !enc.ns)) {
      assert s[2..|s| - 2] == n[1..];
      if NameRest(enc.ns, false, n[1..]) {
        var had := NamePasses(enc, false, s, 2, |s| - 2);
        StartNameStep(enc, had, s, |s| - 2);
        SlashStep(enc, EmptyElementNoAtts, s, |s| - 1);
      } else {
        NameFails(enc, false, s, 2);
      }
    } else {
      OtherMarkup(enc, s);
    }
  }

  lemma OtherMarkup(enc: Encoding, s: Octets)
    requires |s| >= 2
    ensures forall st, end :: st == AfterExcl || st == PiOpen || st == EndOpen ==>
              Run(enc, st, s, 2) != Token(EmptyElementNoAtts, end)
  {
    hide Run;
    forall st | (st == AfterExcl || st == PiOpen || st == EndOpen) && Run(enc, st, s, 2).Token?
      ensures Run(enc, st, s, 2).tok != EmptyElementNoAtts
    {
      AttributeList.OffTagRun(enc, st, s, 2);
    }
  }

  /**
   * Production [44] of XML 1.0, EmptyElemTag without attributes: for text of one-byte characters without white
   * space, `<.../>` is one tag exactly when a name stands in it.
   */
  lemma EmptyElement(enc: Encoding, n: Octets)
    requires forall k :: 0 <= k < |n| ==> n[k] < 0x80 && n[k] !in {0x20, 0x9, 0xA, 0xD}
    ensures Meaning(enc, Content, EmptyTag(n), 0) == Ok([Markup(EmptyElementNoAtts, EmptyTag(n))]) <==>
            IsName(enc.ns, n)
  {
    hide Run, IsName, AtomAt;
    var s := EmptyTag(n);
    var r := Run(enc, AfterLt, s, 1);
    EmptyRun(enc, n);
    TagAtom(enc, s);
    if r.Token? && r.tok != XmlDecl {
      Onward(enc, Content, s);
      FirstEvent(Markup(r.tok, s[..r.end]), AtomAt(enc, Content, s, 0), enc, s[r.end..], Markup(EmptyElementNoAtts, s));
    }
  }

  /** The first event settles whether it is all there is. */
  lemma FirstEvent(e: Event, a: Atom, enc: Encoding, rest: Octets, whole: Event)
    requires a.At? && a.events == [e] && (e == whole ==> rest == [] && a.mode == Content)
    ensures Prepend(a.events, Meaning(enc, a.mode, rest, 0)) == Ok([whole]) <==> e == whole
  {
    var m := Meaning(enc, a.mode, rest, 0);
    if m.Ok? {
      assert ([e] + m.events)[0] == e;
      if rest == [] && a.mode == Content {
        assert [e] + m.events == [e];
      }
    }
  }

  // ----- elements

  lemma {:induction false} EndNamePasses(enc: Encoding, s: Octets, i: nat, j: nat)
    requires i <= j <= |s| && forall k :: i <= k < j ==> s[k] < 0x80 && (InNCName(s[k]) || s[k] == ':' as int)
    ensures Run(enc, EndName, s, i) == Run(enc, EndName, s, j)
    decreases j - i
  {
    hide Run;
    if i < j {
      EndNameStep(enc, s, i);
      EndNamePasses(enc, s, i + 1, j);
    }
  }

  lemma EndNameStep(enc: Encoding, s: Octets, i: nat)
    requires i < |s| && s[i] < 0x80
    ensures InNCName(s[i]) || s[i] == ':' as int ==> Run(enc, EndName, s, i) == Run(enc, EndName, s, i + 1)
    ensures s[i] == '>' as int ==> Run(enc, EndName, s, i) == Token(EndTag, i + 1)
    ensures StartsNCName(s[i]) || (s[i] == ':' as int && !enc.ns) ==>
              Run(enc, EndOpen, s, i) == Run(enc, EndName, s, i + 1)
  {
    hide ByteType, IsNameChar, IsNmStrt, Run;
    AsciiStep(enc, EndName, s, i);
    AsciiStep(enc, EndOpen, s, i);
    NameClasses(enc, s[i]);
    BlankClasses(enc, s[i]);
    MarkupClasses(enc, s[i]);
  }

  function StartTag(n: Octets): Octets {
    Ascii("<") + n + Ascii(">")
  }

  function EndTagOf(n: Octets): Octets {
    Ascii("</") + n + Ascii(">")
  }

  lemma NameBytes(ns: bool, n: Octets)
    requires IsName(ns, n)
    ensures forall k :: 0 <= k < |n| ==> n[k] < 0x80 && (InNCName(n[k]) || n[k] == ':' as int)
  {
    if ns && !IsNCName(n) {
      var k :| 0 <= k < |n| && n[k] == ':' as int && IsNCName(n[..k]) && IsNCName(n[k + 1..]);
      assert forall j :: 0 <= j < k ==> n[..k][j] == n[j];
      assert forall j :: k < j < |n| ==> n[k + 1..][j - k - 1] == n[j];
    }
  }

  lemma StartRun(enc: Encoding, n: Octets, rest: Octets)
    requires IsName(enc.ns, n)
    ensures Run(enc, AfterLt, StartTag(n) + rest, 1) == Token(StartTagNoAtts, |n| + 2)
  {
    hide Run, IsName, NameRest;
    var s := StartTag(n) + rest;
    NameBytes(enc.ns, n);
    NameIs(enc.ns, n);
    assert forall k :: 0 <= k < |n| ==> s[k + 1] == n[k];
    assert forall k :: 2 <= k <= |n| ==> s[k] == n[k - 1];
    AfterLtStep(enc, s, 1);
    assert s[2..|n| + 1] == n[1..];
    var had := NamePasses(enc, false, s, 2, |n| + 1);
    StartNameStep(enc, had, s, |n| + 1);
  }

  lemma EndRun(enc: Encoding, n: Octets, rest: Octets)
    requires IsName(enc.ns, n)
    ensures Run(enc, AfterLt, EndTagOf(n) + rest, 1) == Token(EndTag, |n| + 3)
  {
    hide Run, IsName, NameRest;
    var s := EndTagOf(n) + rest;
    NameBytes(enc.ns, n);
    NameIs(enc.ns, n);
    assert forall k :: 0 <= k < |n| ==> s[k + 2] == n[k];
    assert forall k :: 3 <= k <= |n| + 1 ==> s[k] == n[k - 2];
    AfterLtStep(enc, s, 1);
    EndNameStep(enc, s, 2);
    EndNamePasses(enc, s, 3, |n| + 2);
    EndNameStep(enc, s, |n| + 2);
  }

  /** One piece of markup and what follows it. */
  lemma MarkupThen(enc: Encoding, tok: Tok, tag: Octets, rest: Octets)
    requires tag != [] && tag[0] == '<' as int && tok != XmlDecl
    requires Run(enc, AfterLt, tag + rest, 1) == Token(tok, |tag|)
    ensures Meaning(enc, Content, tag + rest, 0) ==
            Prepend([Markup(tok, tag)], Meaning(enc, if tok == CdataSectOpen then Cdata else Content, rest, 0))
  {
    hide Run, AtomAt;
    var s := tag + rest;
    TagAtom(enc, s);
    assert s[..|tag|] == tag && s[|tag|..] == rest;
    Onward(enc, Content, s);
  }

  /** An element of one-byte names that holds character data: its start tag, the data with line ends, its end tag. */
  lemma SimpleElement(enc: Encoding, n: Octets, t: Octets)
    requires IsName(enc.ns, n)
    requires IsText(t) && '<' as int !in t && '&' as int !in t && !HasClose(t)
    ensures Meaning(enc, Content, StartTag(n) + (t + EndTagOf(n)), 0) ==
            Ok([Markup(StartTagNoAtts, StartTag(n))] + AsChars(Lines(enc, t)) + [Markup(EndTag, EndTagOf(n))])
  {
    hide Run, IsName, IsText, HasClose, Lines;
    var end := EndTagOf(n);
    StartRun(enc, n, t + end);
    MarkupThen(enc, StartTagNoAtts, StartTag(n), t + end);
    NoCloseUpTo(t, end);
    DataUpTo(enc, Content, t, end);
    EndRun(enc, n, []);
    assert end + [] == end;
    MarkupThen(enc, EndTag, end, []);
    assert Meaning(enc, Content, [], 0) == Ok([]);
  }

  // ----- CDATA sections

  lemma CdataRun(enc: Encoding, rest: Octets)
    ensures Run(enc, AfterLt, Ascii("<![CDATA[") + rest, 1) == Token(CdataSectOpen, 9)
  {
    hide Run, ByteType;
    var open := Ascii("<![CDATA[");
    var s := open + rest;
    assert open[1] == '!' as int && open[2] == '[' as int && open[3..9] == Ascii("CDATA[");
    assert s[1] == open[1] && s[2] == open[2] && s[3..9] == open[3..9];
    AfterLtStep(enc, s, 1);
    AsciiStep(enc, AfterExcl, s, 2);
    MarkupClasses(enc, s[2]);
    CdataLetters(enc, s);
  }

  lemma CdataLetters(enc: Encoding, s: Octets)
    requires |s| >= 9 && s[3..9] == Ascii("CDATA[")
    ensures Run(enc, CdataOpen(0, true), s, 3) == Token(CdataSectOpen, 9)
  {
    hide Run, ByteType;
    assert forall k :: 0 <= k < 6 ==> s[3 + k] == s[3..9][k];
    AsciiStep(enc, CdataOpen(0, true), s, 3);
    AsciiStep(enc, CdataOpen(1, true), s, 4);
    AsciiStep(enc, CdataOpen(2, true), s, 5);
    AsciiStep(enc, CdataOpen(3, true), s, 6);
    AsciiStep(enc, CdataOpen(4, true), s, 7);
    AsciiStep(enc, CdataOpen(5, true), s, 8);
  }

  lemma CdataEnd(enc: Encoding)
    ensures Meaning(enc, Cdata, Ascii("]]>"), 0) == Ok([Markup(CdataSectClose, Ascii("]]>"))])
  {
    hide Run, ByteType;
    var s := Ascii("]]>");
    assert s[0..3] == s;
  }

  /** Productions [18] to [21] of XML 1.0: in a CDATA section all text but the closing brackets is data. */
  lemma CdataSection(enc: Encoding, t: Octets)
    requires IsText(t) && !HasClose(t)
    ensures Meaning(enc, Content, Ascii("<![CDATA[") + (t + Ascii("]]>")), 0) ==
            Ok([Markup(CdataSectOpen, Ascii("<![CDATA["))] + AsChars(Lines(enc, t))
               + [Markup(CdataSectClose, Ascii("]]>"))])
  {
    hide Run, IsText, HasClose, Lines;
    var end := Ascii("]]>");
    CdataRun(enc, t + end);
    MarkupThen(enc, CdataSectOpen, Ascii("<![CDATA["), t + end);
    NoCloseUpTo(t, end);
    DataUpTo(enc, Cdata, t, end);
    CdataEnd(enc);
  }

  // ----- comments

  /** No two hyphens in a row, and none at the end. */
  ghost predicate NoDashes(t: Octets) {
    forall k :: 0 <= k < |t| && t[k] == '-' as int ==> k + 1 < |t| && t[k + 1] != '-' as int
  }

  /** The same after a hyphen or after none. */
  ghost predicate Calm(dash: bool, t: Octets) {
    NoDashes(t) && (dash ==> t != [] && t[0] != '-' as int)
  }

  /** The first character of the text of a comment. */
  lemma CalmFirst(dash: bool, t: Octets, n: nat)
    requires 1 <= n <= |t| && (n > 1 ==> forall k :: 0 <= k < n ==> t[k] != '-' as int)
    ensures Calm(dash, t) <==> !(dash && t[0] == '-' as int) && Calm(t[0] == '-' as int, t[n..])
  {
    var u := t[n..];
    assert forall k :: n <= k < |t| ==> t[k] == u[k - n];
    assert forall k :: 0 <= k < |u| ==> u[k] == t[k + n];
  }

  lemma CharStep(enc: Encoding, st: State, s: Octets, i: nat)
    requires i < |s| && TakesLeads(st)
    ensures var n := CharSize(ByteType(enc, s[i]));
            Run(enc, st, s, i) == if |s| - i < n then PartialChar
                                  else Moved(enc, Step(enc, st, ByteType(enc, s[i]), s[i..i + n]), s, i + n)
  {
    hide Step, ByteType;
  }

  lemma CommentReads(enc: Encoding, dash: bool, s: Octets, i: nat)
    requires i < |s|
    ensures var n := CharSize(ByteType(enc, s[i]));
            Run(enc, if dash then CommentDash else CommentBody, s, i) ==
            if dash && s[i] == '-' as int then Run(enc, CommentDashDash, s, i + 1)
            else if |s| - i < n then PartialChar
            else if !IsChar(s[i..i + n]) then Invalid
            else Run(enc, if s[i] == '-' as int then CommentDash else CommentBody, s, i + n)
  {
    hide ByteType, IsChar, Refused, Run;
    MarkupClasses(enc, s[i]);
    CharStep(enc, if dash then CommentDash else CommentBody, s, i);
    var n := CharSize(ByteType(enc, s[i]));
    if i + n <= |s| {
      RefusedMeans(enc, s[i..i + n]);
    }
  }

  lemma DashDashStep(enc: Encoding, s: Octets, i: nat)
    requires i < |s|
    ensures Run(enc, CommentDashDash, s, i) == if s[i] == '>' as int then Token(Comment, i + 1) else Invalid
  {
    hide ByteType;
    MarkupClasses(enc, s[i]);
  }

  /** The text of a comment is read to its end exactly when it is text and calm. */
  lemma {:induction false} CommentRun(enc: Encoding, dash: bool, s: Octets, i: nat)
    requires i + 3 <= |s| && s[|s| - 3..] == Ascii("-->")
    ensures Run(enc, if dash then CommentDash else CommentBody, s, i) == Token(Comment, |s|) <==>
            IsText(s[i..|s| - 3]) && Calm(dash, s[i..|s| - 3])
    decreases |s| - i
  {
    hide Run, ByteType, IsChar, IsText, Calm;
    var t, z := s[i..|s| - 3], s[|s| - 3..];
    assert s[|s| - 3] == z[0] && s[|s| - 2] == z[1] && s[|s| - 1] == z[2];
    CommentReads(enc, dash, s, i);
    if t == [] {
      CommentEnds(enc, dash, s, i);
    } else {
      ContentGrammar.TextStep(enc, t);
      var n := CharSize(ByteType(enc, s[i]));
      if n <= |t| {
        assert t[..n] == s[i..i + n] && t[n..] == s[i + n..|s| - 3];
        if IsChar(t[..n]) {
          ContentGrammar.CharBytes(enc, t, n);
          CalmFirst(dash, t, n);
          CommentRun(enc, s[i] == '-' as int, s, i + n);
        }
      } else if i + n <= |s| && IsChar(s[i..i + n]) {
        LongChar(enc, s, i, n);
      }
      if dash && s[i] == '-' as int {
        CalmFirst(dash, t, 1);
        DashDashStep(enc, s, i + 1);
      }
    }
  }

  lemma CommentEnds(enc: Encoding, dash: bool, s: Octets, i: nat)
    requires i + 3 == |s| && s[i] == '-' as int && s[i + 1] == '-' as int && s[i + 2] == '>' as int
    ensures Run(enc, if dash then CommentDash else CommentBody, s, i) == Token(Comment, |s|) <==> !dash
    ensures IsText(s[i..|s| - 3]) && (Calm(dash, s[i..|s| - 3]) <==> !dash)
  {
    hide Run, ByteType, IsChar;
    CommentReads(enc, dash, s, i);
    ContentGrammar.LetterChar(enc, s[i..]);
    if dash {
      DashDashStep(enc, s, i + 1);
    } else {
      assert s[i..][..1] == s[i..i + 1];
      CommentReads(enc, true, s, i + 1);
      DashDashStep(enc, s, i + 2);
    }
  }

  /** No byte of a longer character is a hyphen. */
  lemma LongChar(enc: Encoding, s: Octets, i: nat, n: nat)
    requires i < i + n <= |s| && n == CharSize(ByteType(enc, s[i])) && n > 1 && IsChar(s[i..i + n])
    ensures forall k :: i <= k < i + n ==> 0x80 <= s[k]
  {
    hide ByteType, IsChar;
    assert s[i..][..n] == s[i..i + n];
    ContentGrammar.CharBytes(enc, s[i..], n);
    assert forall k :: i <= k < i + n ==> s[k] == s[i..][k - i];
  }

  function CommentOf(t: Octets): Octets {
    Ascii("<!--") + (t + Ascii("-->"))
  }

  lemma CommentOpens(enc: Encoding, s: Octets)
    requires |s| >= 4 && s[1] == '!' as int && s[2] == '-' as int && s[3] == '-' as int
    ensures Run(enc, AfterLt, s, 1) == Run(enc, CommentBody, s, 4)
  {
    hide Run, ByteType;
    AfterLtStep(enc, s, 1);
    AsciiStep(enc, AfterExcl, s, 2);
    AsciiStep(enc, CommentOpen, s, 3);
    MarkupClasses(enc, s[2]);
    MarkupClasses(enc, s[3]);
  }

  /** Production [15] of XML 1.0, Comment: legal characters, no two hyphens in a row and none at the end. */
  lemma CommentMeans(enc: Encoding, t: Octets)
    ensures Meaning(enc, Content, CommentOf(t), 0) == Ok([Markup(Comment, CommentOf(t))]) <==>
            IsText(t) && NoDashes(t)
  {
    hide Run, IsText, NoDashes, AtomAt;
    var s := CommentOf(t);
    assert s[1] == '!' as int && s[2] == '-' as int && s[3] == '-' as int;
    assert s[4..|s| - 3] == t && s[|s| - 3..] == Ascii("-->");
    CommentOpens(enc, s);
    CommentRun(enc, false, s, 4);
    TagAtom(enc, s);
    var r := Run(enc, AfterLt, s, 1);
    if r.Token? && r.tok != XmlDecl {
      Onward(enc, Content, s);
      FirstEvent(Markup(r.tok, s[..r.end]), AtomAt(enc, Content, s, 0), enc, s[r.end..], Markup(Comment, s));
      assert r.end == |s| ==> s[..r.end] == s;
    }
  }
}
