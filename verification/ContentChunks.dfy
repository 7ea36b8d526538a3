/** What the content of a document means, one character or piece of markup at a time. */
module ContentChunks {
  import opened Bytes
  import opened ByteTypes
  import opened ContentAutomaton
  import opened ContentCases

  /** Ordinary content, or the inside of a CDATA section. */
  datatype Mode = Content | Cdata

  /** What is reported: a character of data, or markup with its text. */
  datatype Event = Char(b: byte) | Markup(tok: Tok, text: Octets)

  const LF: byte := 0x0A

  ghost function AsChars(s: Octets): (es: seq<Event>)
    ensures |es| == |s| && forall k :: 0 <= k < |s| ==> es[k] == Char(s[k])
  {
    seq(|s|, k requires 0 <= k < |s| => Char(s[k]))
  }

  /** The smallest piece of content at a position: its events and where it ends, or an error. */
  datatype Atom = At(events: seq<Event>, next: nat, mode: Mode) | Fault

  ghost function MarkupAtom(r: Scan, s: Octets, i: nat): Atom
    requires i < |s| && (r.Token? ==> i < r.end <= |s|)
  {
    if r.Token? && r.tok != XmlDecl then
      At([Markup(r.tok, s[i..r.end])], r.end, if r.tok == CdataSectOpen then Cdata else Content)
    else Fault
  }

  /** Line ends are normalised; other data is reported as it stands. */
  ghost function DataAtom(enc: Encoding, mode: Mode, s: Octets, i: nat): Atom
    requires i < |s|
  {
    var t := ByteType(enc, s[i]);
    var n := CharSize(t);
    if t == Cr then At([Char(LF)], if i + 1 < |s| && ByteType(enc, s[i + 1]) == Lf then i + 2 else i + 1, mode)
    else if t == Lf then At([Char(LF)], i + 1, mode)
    else if |s| - i < n || Refused(t, s[i..i + n]) then Fault
    else At(AsChars(s[i..i + n]), i + n, mode)
  }

  /** "]]>" stands at this position. */
  ghost predicate Closes(s: Octets, i: nat)
    requires i < |s|
  {
    i + 2 < |s| && s[i] == ASCII_RSQB && s[i + 1] == ASCII_RSQB && s[i + 2] == ASCII_GT
  }

  ghost function AtomAt(enc: Encoding, mode: Mode, s: Octets, i: nat): (a: Atom)
    requires i < |s|
    ensures a.At? ==> i < a.next <= |s|
  {
    var t := ByteType(enc, s[i]);
    if Closes(s, i) then
      if mode == Cdata then At([Markup(CdataSectClose, s[i..i + 3])], i + 3, Content) else Fault
    else if mode == Content && t == Lt then MarkupAtom(Run(enc, AfterLt, s, i + 1), s, i)
    else if mode == Content && t == Amp then MarkupAtom(Run(enc, RefOpen(InContent), s, i + 1), s, i)
    else DataAtom(enc, mode, s, i)
  }

  /** The events of a complete input, or an error. A CDATA section must be closed. */
  datatype Outcome = Ok(events: seq<Event>) | Err

  ghost function Prepend(es: seq<Event>, r: Outcome): Outcome {
    if r.Ok? then Ok(es + r.events) else Err
  }

  ghost function Meaning(enc: Encoding, mode: Mode, s: Octets, i: nat): Outcome
    requires i <= |s|
    decreases |s| - i
  {
    if i == |s| then if mode == Content then Ok([]) else Err else
      match AtomAt(enc, mode, s, i)
      case Fault => Err
      case At(events, next, m) => Prepend(events, Meaning(enc, m, s, next))
  }

  /** The piece at this position is the same whatever follows the buffer. */
  ghost predicate Decided(enc: Encoding, mode: Mode, s: Octets, i: nat)
    requires i < |s|
  {
    var t := ByteType(enc, s[i]);
    if t == Rsqb then i + 1 < |s| && (s[i + 1] == ASCII_RSQB ==> i + 2 < |s|)
    else if mode == Content && t == Lt then
      var r := Run(enc, AfterLt, s, i + 1);
      !r.Partial? && !r.PartialChar?
    else if mode == Content && t == Amp then
      var r := Run(enc, RefOpen(InContent), s, i + 1);
      !r.Partial? && !r.PartialChar?
    else if t == Cr then i + 1 < |s|
    else CharSize(t) <= |s| - i
  }

  lemma DataStable(enc: Encoding, mode: Mode, s: Octets, rest: Octets, i: nat)
    requires i < |s| && CharSize(ByteType(enc, s[i])) <= |s| - i
    requires ByteType(enc, s[i]) == Cr ==> i + 1 < |s|
    ensures DataAtom(enc, mode, s + rest, i) == DataAtom(enc, mode, s, i)
  {
    hide Refused, AsChars, ByteType;
    var n := CharSize(ByteType(enc, s[i]));
    assert (s + rest)[i] == s[i];
    assert (s + rest)[i..i + n] == s[i..i + n];
  }

  lemma MarkupStable(enc: Encoding, st: State, s: Octets, rest: Octets, i: nat)
    requires i < |s|
    requires var r := Run(enc, st, s, i + 1); !r.Partial? && !r.PartialChar?
    ensures MarkupAtom(Run(enc, st, s + rest, i + 1), s + rest, i) == MarkupAtom(Run(enc, st, s, i + 1), s, i)
  {
    hide Run;
    var r := Run(enc, st, s, i + 1);
    RunStable(enc, st, s, rest, i + 1);
    if r.Token? {
      assert (s + rest)[i..r.end] == s[i..r.end];
    }
  }

  lemma DecidedStable(enc: Encoding, mode: Mode, s: Octets, rest: Octets, i: nat)
    requires i < |s| && Decided(enc, mode, s, i)
    ensures AtomAt(enc, mode, s + rest, i) == AtomAt(enc, mode, s, i)
  {
    hide Run, MarkupAtom, DataAtom, ByteType;
    var t := ByteType(enc, s[i]);
    TypeOfByte(enc, s[i]);
    assert (s + rest)[i] == s[i];
    if Closes(s + rest, i) {
      assert (s + rest)[i..i + 3] == s[i..i + 3];
    } else if mode == Content && t == Lt {
      MarkupStable(enc, AfterLt, s, rest, i);
    } else if mode == Content && t == Amp {
      MarkupStable(enc, RefOpen(InContent), s, rest, i);
    } else {
      DataStable(enc, mode, s, rest, i);
    }
  }

  /** Decided character data fills the buffer from i to j. */
  ghost predicate Chars(enc: Encoding, mode: Mode, s: Octets, i: nat, j: nat)
    requires i <= j <= |s|
    decreases j - i
  {
    i == j ||
    (Decided(enc, mode, s, i) &&
     var a := AtomAt(enc, mode, s, i);
     && a.At? && a.next <= j && a.mode == mode && a.events == AsChars(s[i..a.next])
     && Chars(enc, mode, s, a.next, j))
  }

  lemma {:induction false} CharsAppend(enc: Encoding, mode: Mode, s: Octets, i: nat, j: nat, k: nat)
    requires i <= j <= k <= |s| && Chars(enc, mode, s, i, j) && Chars(enc, mode, s, j, k)
    ensures Chars(enc, mode, s, i, k)
    decreases j - i
  {
    hide Decided, AtomAt;
    if i < j {
      CharsAppend(enc, mode, s, AtomAt(enc, mode, s, i).next, j, k);
    }
  }

  lemma CharsOne(enc: Encoding, mode: Mode, s: Octets, i: nat, j: nat)
    requires i < j <= |s| && Decided(enc, mode, s, i)
    requires AtomAt(enc, mode, s, i) == At(AsChars(s[i..j]), j, mode)
    ensures Chars(enc, mode, s, i, j)
  {
    hide Decided, AtomAt;
  }

  lemma AsCharsAppend(a: Octets, b: Octets)
    ensures AsChars(a + b) == AsChars(a) + AsChars(b)
  {
  }

  lemma {:induction false} MeaningOfChars(enc: Encoding, mode: Mode, s: Octets, rest: Octets, i: nat, j: nat)
    requires i <= j <= |s| && Chars(enc, mode, s, i, j)
    ensures Meaning(enc, mode, s + rest, i) == Prepend(AsChars(s[i..j]), Meaning(enc, mode, s + rest, j))
    decreases j - i
  {
    hide Decided, AtomAt;
    if i < j {
      var a := AtomAt(enc, mode, s, i);
      DecidedStable(enc, mode, s, rest, i);
      MeaningOfChars(enc, mode, s, rest, a.next, j);
      assert s[i..j] == s[i..a.next] + s[a.next..j];
      AsCharsAppend(s[i..a.next], s[a.next..j]);
    }
  }

  lemma MeaningOfAtom(enc: Encoding, mode: Mode, s: Octets, rest: Octets, i: nat)
    requires i < |s| && Decided(enc, mode, s, i)
    ensures var a := AtomAt(enc, mode, s, i);
            Meaning(enc, mode, s + rest, i) ==
            if a.Fault? then Err else Prepend(a.events, Meaning(enc, a.mode, s + rest, a.next))
  {
    hide Decided, AtomAt;
    DecidedStable(enc, mode, s, rest, i);
  }

  ghost function ShiftAtom(a: Atom, n: nat): Atom {
    if a.At? then a.(next := a.next + n) else a
  }

  lemma DataShift(enc: Encoding, mode: Mode, p: Octets, s: Octets, i: nat)
    requires i < |s|
    ensures DataAtom(enc, mode, p + s, |p| + i) == ShiftAtom(DataAtom(enc, mode, s, i), |p|)
  {
    hide Refused, AsChars, ByteType;
    var q, k := p + s, |p| + i;
    var n := CharSize(ByteType(enc, s[i]));
    assert q[k] == s[i] && (i + 1 < |s| ==> q[k + 1] == s[i + 1]);
    if |s| - i >= n {
      assert q[k..k + n] == s[i..i + n];
    }
  }

  lemma MarkupShift(enc: Encoding, st: State, p: Octets, s: Octets, i: nat)
    requires i < |s|
    ensures MarkupAtom(Run(enc, st, p + s, |p| + (i + 1)), p + s, |p| + i)
         == ShiftAtom(MarkupAtom(Run(enc, st, s, i + 1), s, i), |p|)
  {
    hide Run;
    RunShift(enc, st, p, s, i + 1);
    var r := Run(enc, st, s, i + 1);
    if r.Token? {
      assert (p + s)[|p| + i..|p| + r.end] == s[i..r.end];
    }
  }

  lemma AtomShift(enc: Encoding, mode: Mode, p: Octets, s: Octets, i: nat)
    requires i < |s|
    ensures AtomAt(enc, mode, p + s, |p| + i) == ShiftAtom(AtomAt(enc, mode, s, i), |p|)
  {
    hide Run, DataAtom, MarkupAtom, ByteType;
    var q, k := p + s, |p| + i;
    assert q[k] == s[i] && (i + 1 < |s| ==> q[k + 1] == s[i + 1]) && (i + 2 < |s| ==> q[k + 2] == s[i + 2]);
    if Closes(s, i) {
      assert q[k..k + 3] == s[i..i + 3];
    }
    MarkupShift(enc, AfterLt, p, s, i);
    MarkupShift(enc, RefOpen(InContent), p, s, i);
    DataShift(enc, mode, p, s, i);
  }

  /** The meaning of the rest of an input does not depend on what stands before it. */
  lemma {:induction false} MeaningShift(enc: Encoding, mode: Mode, p: Octets, s: Octets, i: nat)
    requires i <= |s|
    ensures Meaning(enc, mode, p + s, |p| + i) == Meaning(enc, mode, s, i)
    decreases |s| - i
  {
    hide AtomAt;
    if i < |s| {
      AtomShift(enc, mode, p, s, i);
      var a := AtomAt(enc, mode, s, i);
      if a.At? {
        MeaningShift(enc, a.mode, p, s, a.next);
      }
    }
  }
}
