/** What whole inputs mean: character data, tags and CDATA sections, in the words of XML 1.0. */
module ContentGrammar {
  import opened Bytes
  import opened ByteTypes
  import opened CharacterClasses
  import opened ContentAutomaton
  import opened ContentChunks
  import opened Unicode

  /** Section 2.11 of XML 1.0: every line ends in a line feed. */
  function LineEnds(s: Octets): Octets {
    if s == [] then []
    else if s[0] != 0xD then [s[0]] + LineEnds(s[1..])
    else [0xA] + LineEnds(if |s| > 1 && s[1] == 0xA then s[2..] else s[1..])
  }

  /** Entity text has been normalised when it was declared. */
  function Lines(enc: Encoding, s: Octets): Octets {
    if enc.internal then s else LineEnds(s)
  }

  ghost predicate ClosesAt(s: Octets, k: nat) {
    k + 3 <= |s| && s[k] == ']' as int && s[k + 1] == ']' as int && s[k + 2] == '>' as int
  }

  ghost predicate HasClose(s: Octets) {
    exists k :: 0 <= k < |s| && ClosesAt(s, k)
  }

  lemma TextStep(enc: Encoding, s: Octets)
    requires s != []
    ensures var n := CharSize(ByteType(enc, s[0]));
            IsText(s) <==> n <= |s| && IsChar(s[..n]) && IsText(s[n..])
  {
    hide IsChar, ByteType;
    if IsText(s) {
      var n :| 1 <= n <= |s| && IsChar(s[..n]) && IsText(s[n..]);
      SizeOfChar(enc, s, n);
    }
  }

  lemma {:induction false} LineEndsAfter(a: Octets, s: Octets)
    requires 0xD !in a
    ensures LineEnds(a + s) == a + LineEnds(s)
  {
    if a == [] {
      assert a + s == s;
    } else {
      LineEndsAfter(a[1..], s);
      assert (a + s)[1..] == a[1..] + s;
    }
  }

  /** The bytes of a character of more than one byte are none of the bytes of ASCII. */
  lemma CharBytes(enc: Encoding, s: Octets, n: nat)
    requires n <= |s| && IsChar(s[..n]) && n == CharSize(ByteType(enc, s[0]))
    ensures n > 1 ==> forall k :: 0 <= k < n ==> 0x80 <= s[k]
  {
  }

  /** The first piece of data. */
  lemma FirstAtom(enc: Encoding, mode: Mode, s: Octets)
    requires s != [] && !ClosesAt(s, 0) && (mode == Content ==> s[0] != '<' as int && s[0] != '&' as int)
    ensures var n := CharSize(ByteType(enc, s[0]));
            AtomAt(enc, mode, s, 0) ==
            if s[0] == 0xD && !enc.internal then At([Char(0xA)], if |s| > 1 && s[1] == 0xA then 2 else 1, mode)
            else if n <= |s| && IsChar(s[..n]) then At(AsChars(s[..n]), n, mode)
            else Fault
  {
    hide Run, ByteType, IsChar, Refused;
    MarkupClasses(enc, s[0]);
    BlankClasses(enc, s[0]);
    if |s| > 1 {
      BlankClasses(enc, s[1]);
    }
    var n := CharSize(ByteType(enc, s[0]));
    if n <= |s| {
      RefusedMeans(enc, s[..n]);
    }
    if s[0] == 0xA || s[0] == 0xD {
      LineFeed(enc, s);
    }
  }

  /** A character of ASCII that may stand in a document is one byte. */
  lemma LetterChar(enc: Encoding, s: Octets)
    requires s != [] && 0x20 <= s[0] < 0x80
    ensures CharSize(ByteType(enc, s[0])) == 1 && IsChar(s[..1])
  {
    assert Encodes(s[..1], s[0]) && LegalChar(s[0]);
  }

  lemma LineFeed(enc: Encoding, s: Octets)
    requires s != [] && (s[0] == 0xA || s[0] == 0xD)
    ensures CharSize(ByteType(enc, s[0])) == 1 && IsChar(s[..1])
  {
    assert Encodes(s[..1], s[0]) && LegalChar(s[0]);
  }

  /** The meaning of an input is its first piece and the meaning of what follows. */
  lemma Onward(enc: Encoding, mode: Mode, s: Octets)
    requires s != [] && AtomAt(enc, mode, s, 0).At?
    ensures var a := AtomAt(enc, mode, s, 0);
            Meaning(enc, mode, s, 0) == Prepend(a.events, Meaning(enc, a.mode, s[a.next..], 0))
  {
    hide AtomAt;
    var a := AtomAt(enc, mode, s, 0);
    assert s == s[..a.next] + s[a.next..];
    MeaningShift(enc, a.mode, s[..a.next], s[a.next..], 0);
  }

  /** The first n bytes are one piece of data: a line end, or a character. */
  ghost predicate FirstPiece(enc: Encoding, s: Octets, n: nat)
    requires s != []
  {
    if s[0] == 0xD && !enc.internal then n == if |s| > 1 && s[1] == 0xA then 2 else 1
    else n <= |s| && n == CharSize(ByteType(enc, s[0])) && IsChar(s[..n])
  }

  lemma TextPart(enc: Encoding, s: Octets, n: nat)
    requires s != [] && FirstPiece(enc, s, n)
    ensures 1 <= n <= |s| && (IsText(s) <==> IsText(s[n..]))
  {
    hide IsChar, ByteType, IsText;
    TextStep(enc, s);
    if s[0] == 0xD {
      LineFeed(enc, s);
      if n == 2 {
        TextStep(enc, s[1..]);
        LineFeed(enc, s[1..]);
        assert s[1..][1..] == s[2..];
      }
    }
  }

  lemma LinePart(enc: Encoding, s: Octets, n: nat)
    requires s != [] && FirstPiece(enc, s, n)
    ensures 1 <= n <= |s|
    ensures Lines(enc, s) == (if s[0] == 0xD && !enc.internal then [0xA] else s[..n]) + Lines(enc, s[n..])
  {
    hide IsChar, ByteType;
    assert s == s[..n] + s[n..];
    if s[0] != 0xD && !enc.internal {
      CharBytes(enc, s, n);
      LineEndsAfter(s[..n], s[n..]);
    }
  }

  lemma ClosePart(enc: Encoding, s: Octets, n: nat)
    requires s != [] && FirstPiece(enc, s, n)
    ensures 1 <= n <= |s| && (HasClose(s) <==> ClosesAt(s, 0) || HasClose(s[n..]))
  {
    hide IsChar, ByteType;
    if s[0] != 0xD || enc.internal {
      CharBytes(enc, s, n);
    }
    CloseParts(s, n);
  }

  lemma CloseParts(s: Octets, n: nat)
    requires 1 <= n <= |s| && forall k :: 1 <= k < n ==> s[k] != ']' as int
    ensures HasClose(s) <==> ClosesAt(s, 0) || HasClose(s[n..])
  {
    if HasClose(s) {
      var k :| 0 <= k < |s| && ClosesAt(s, k);
      if k > 0 {
        assert ClosesAt(s[n..], k - n);
      }
    }
    if HasClose(s[n..]) {
      var k :| 0 <= k < |s[n..]| && ClosesAt(s[n..], k);
      assert ClosesAt(s, n + k);
    }
  }

  /**
   * Production [14] of XML 1.0, CharData: without markup an input is character data, or refused: it is accepted
   * exactly when it holds only legal characters in UTF-8 and nowhere closes a CDATA section.
   */
  lemma {:induction false} CharacterData(enc: Encoding, s: Octets)
    requires '<' as int !in s && '&' as int !in s
    ensures Meaning(enc, Content, s, 0) ==
            if IsText(s) && !HasClose(s) then Ok(AsChars(Lines(enc, s))) else Err
    decreases |s|
  {
    hide ByteType, IsChar, AtomAt, LineEnds;
    if s == [] {
      NoLines();
    } else if ClosesAt(s, 0) {
      ClosedData(enc, s);
    } else {
      FirstAtom(enc, Content, s);
      var a := AtomAt(enc, Content, s, 0);
      if a.At? {
        Onward(enc, Content, s);
        TextPart(enc, s, a.next);
        LinePart(enc, s, a.next);
        ClosePart(enc, s, a.next);
        CharacterData(enc, s[a.next..]);
        DataEvents(enc, s, a.next);
      } else {
        TextStep(enc, s);
      }
    }
  }

  lemma ClosedData(enc: Encoding, s: Octets)
    requires ClosesAt(s, 0)
    ensures AtomAt(enc, Content, s, 0) == Fault && HasClose(s)
  {
  }

  lemma NoLines()
    ensures LineEnds([]) == []
  {
  }

  lemma DataEvents(enc: Encoding, s: Octets, n: nat)
    requires n <= |s| && s != []
    ensures var first := if s[0] == 0xD && !enc.internal then [0xA] else s[..n];
            AsChars(first + Lines(enc, s[n..])) == AsChars(first) + AsChars(Lines(enc, s[n..]))
    ensures AsChars([0xA]) == [Char(0xA)]
  {
    hide Lines;
  }

  /** Character data up to what follows it. */
  lemma {:induction false} DataUpTo(enc: Encoding, mode: Mode, t: Octets, rest: Octets)
    requires IsText(t) && (mode == Content ==> '<' as int !in t && '&' as int !in t)
    requires forall k :: 0 <= k < |t| ==> !ClosesAt(t + rest, k)
    requires rest == [] || rest[0] != 0xA
    ensures Meaning(enc, mode, t + rest, 0) == Prepend(AsChars(Lines(enc, t)), Meaning(enc, mode, rest, 0))
    decreases |t|
  {
    hide ByteType, IsChar, IsText, LineEnds, ClosesAt, Meaning;
    if t == [] {
      NoLines();
      assert t + rest == rest;
      NothingFirst(Meaning(enc, mode, rest, 0));
    } else {
      TextStep(enc, t);
      var n := FirstOf(enc, t, rest);
      FirstMeans(enc, mode, t, rest, n);
      TextPart(enc, t, n);
      LinePart(enc, t, n);
      CloseShift(t, rest, n);
      DataUpTo(enc, mode, t[n..], rest);
      DataEvents(enc, t, n);
    }
  }

  lemma NothingFirst(r: Outcome)
    ensures Prepend(AsChars([]), r) == r
  {
  }

  lemma FirstAtomOf(enc: Encoding, mode: Mode, t: Octets, rest: Octets, n: nat)
    requires t != [] && !ClosesAt(t + rest, 0) && (mode == Content ==> t[0] != '<' as int && t[0] != '&' as int)
    requires FirstPiece(enc, t, n) && 1 <= n <= |t| && (rest == [] || rest[0] != 0xA)
    ensures AtomAt(enc, mode, t + rest, 0) ==
            At(AsChars(if t[0] == 0xD && !enc.internal then [0xA] else t[..n]), n, mode)
  {
    hide ByteType, IsChar, AtomAt, ClosesAt;
    FirstAtom(enc, mode, t + rest);
    assert (t + rest)[..n] == t[..n];
    assert AsChars([0xA]) == [Char(0xA)];
  }

  lemma FirstMeans(enc: Encoding, mode: Mode, t: Octets, rest: Octets, n: nat)
    requires t != [] && !ClosesAt(t + rest, 0) && (mode == Content ==> t[0] != '<' as int && t[0] != '&' as int)
    requires FirstPiece(enc, t, n) && 1 <= n <= |t| && (rest == [] || rest[0] != 0xA)
    ensures Meaning(enc, mode, t + rest, 0) ==
            Prepend(AsChars(if t[0] == 0xD && !enc.internal then [0xA] else t[..n]),
                    Meaning(enc, mode, t[n..] + rest, 0))
  {
    hide FirstPiece, AtomAt, ClosesAt, Meaning, AsChars, Prepend;
    FirstAtomOf(enc, mode, t, rest, n);
    assert (t + rest)[n..] == t[n..] + rest;
    Onward(enc, mode, t + rest);
  }

  lemma FirstOf(enc: Encoding, t: Octets, rest: Octets) returns (n: nat)
    requires t != []
    requires CharSize(ByteType(enc, t[0])) <= |t| && IsChar(t[..CharSize(ByteType(enc, t[0]))])
    ensures FirstPiece(enc, t, n) && 1 <= n <= |t|
  {
    hide ByteType, IsChar;
    n := CharSize(ByteType(enc, t[0]));
    if t[0] == 0xD && !enc.internal {
      n := if |t| > 1 && t[1] == 0xA then 2 else 1;
    }
  }

  lemma CloseShift(t: Octets, rest: Octets, n: nat)
    requires n <= |t| && forall k :: 0 <= k < |t| ==> !ClosesAt(t + rest, k)
    ensures forall k :: 0 <= k < |t[n..]| ==> !ClosesAt(t[n..] + rest, k)
  {
    forall k | 0 <= k < |t[n..]| ensures !ClosesAt(t[n..] + rest, k) {
      assert !ClosesAt(t + rest, n + k);
    }
  }

  /** No text without the closing brackets closes a section together with what does not begin so. */
  lemma NoCloseUpTo(t: Octets, rest: Octets)
    requires !HasClose(t) && (|rest| > 0 ==> rest[0] != '>' as int) && (|rest| > 1 ==> rest[1] != '>' as int)
    ensures forall k :: 0 <= k < |t| ==> !ClosesAt(t + rest, k)
  {
    forall k | 0 <= k < |t| ensures !ClosesAt(t + rest, k) {
      assert !ClosesAt(t, k);
    }
  }
}
