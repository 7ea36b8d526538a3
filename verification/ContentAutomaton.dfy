/** The markup of element content as one automaton that reads a character at a time. */
module ContentAutomaton {
  import opened Bytes
  import opened ByteTypes

  datatype Tok =
    | StartTagWithAtts | StartTagNoAtts | EmptyElementWithAtts | EmptyElementNoAtts | EndTag
    | CdataSectOpen | CdataSectClose | EntityRef | CharRef | Pi | XmlDecl | Comment

  /** Where a reference stands: in content, or in a value opened by this quote. */
  datatype Place = InContent | InValue(quote: BT)

  datatype State =
    | AfterLt
    | AfterExcl
    | CommentOpen | CommentBody | CommentDash | CommentDashDash
    | CdataOpen(read: nat, matching: bool)
    | PiOpen | PiTarget(target: Octets) | PiTargetQuest(tok: Tok) | PiBody(tok: Tok) | PiQuest(tok: Tok)
    | EndOpen | EndName | EndSpace
    | StartName(hadColon: bool) | StartColon | StartSpace | Slash(empty: Tok)
    | AttName(hadColon: bool) | AttColon | AttSpace | AttEquals | Value(quote: BT) | AfterValue | BetweenAtts
    | RefOpen(place: Place) | RefName(place: Place)
    | CharRefOpen(place: Place) | Decimal(place: Place) | HexOpen(place: Place) | Hexadecimal(place: Place)

  /** One step: go on, finish a token with this character, or refuse it. */
  datatype Move = Go(to: State) | Done(tok: Tok) | Fail

  const CDATA_LSQB: Octets := [0x43, 0x44, 0x41, 0x54, 0x41, 0x5B]

  /** The states whose scanner reads multi-byte characters whole. */
  predicate TakesLeads(st: State) {
    match st
    case AfterLt | CommentBody | CommentDash | PiOpen | PiTarget(_) | PiBody(_) | PiQuest(_) => true
    case EndOpen | EndName | StartName(_) | StartColon | StartSpace => true
    case AttName(_) | AttColon | Value(_) | BetweenAtts | RefOpen(_) | RefName(_) => true
    case _ => false
  }

  /** checkPiTarget: `xml` in lower case is a declaration, in any other case it is refused. */
  function PiTok(target: Octets): Move {
    if |target| == 3 && target[0] in {0x78, 0x58} && target[1] in {0x6D, 0x4D} && target[2] in {0x6C, 0x4C} then
      if target == [0x78, 0x6D, 0x6C] then Done(XmlDecl) else Fail
    else Done(Pi)
  }

  function EndOfRef(place: Place, tok: Tok): Move {
    match place
    case InContent => Done(tok)
    case InValue(quote) => Go(Value(quote))
  }

  function CommentStep(t: BT, ch: Octets): Move {
    if Refused(t, ch) then Fail else if t == Minus then Go(CommentDash) else Go(CommentBody)
  }

  function PiStep(tok: Tok, t: BT, ch: Octets): Move {
    if Refused(t, ch) then Fail else if t == Quest then Go(PiQuest(tok)) else Go(PiBody(tok))
  }

  function TagStep(enc: Encoding, st: State, t: BT, ch: Octets): Move {
    match st
    case EndOpen => if IsNmStrt(enc, t, ch) then Go(EndName) else Fail
    case EndName =>
      if IsNameChar(enc, t, ch) || t == Colon then Go(EndName)
      else if IsBlank(t) then Go(EndSpace) else if t == Gt then Done(EndTag) else Fail
    case EndSpace => if IsBlank(t) then Go(EndSpace) else if t == Gt then Done(EndTag) else Fail
    case StartName(hadColon) =>
      if IsNameChar(enc, t, ch) then Go(st)
      else if t == Colon then if hadColon then Fail else Go(StartColon)
      else if IsBlank(t) then Go(StartSpace)
      else if t == Gt then Done(StartTagNoAtts)
      else if t == Sol then Go(Slash(EmptyElementNoAtts)) else Fail
    case StartColon => if IsNmStrt(enc, t, ch) then Go(StartName(true)) else Fail
    case StartSpace =>
      if IsNmStrt(enc, t, ch) then Go(AttName(false))
      else if IsBlank(t) then Go(StartSpace)
      else if t == Gt then Done(StartTagNoAtts)
      else if t == Sol then Go(Slash(EmptyElementNoAtts)) else Fail
    case Slash(empty) => if t == Gt then Done(empty) else Fail
    case AttName(hadColon) =>
      if IsNameChar(enc, t, ch) then Go(st)
      else if t == Colon then if hadColon then Fail else Go(AttColon)
      else if IsBlank(t) then Go(AttSpace)
      else if t == Equals then Go(AttEquals) else Fail
    case AttColon => if IsNmStrt(enc, t, ch) then Go(AttName(true)) else Fail
    case AttSpace => if t == Equals then Go(AttEquals) else if IsBlank(t) then Go(AttSpace) else Fail
    case AttEquals =>
      if t == Quot || t == Apos then Go(Value(t)) else if IsBlank(t) then Go(AttEquals) else Fail
    case Value(quote) =>
      if t == quote then Go(AfterValue)
      else if Refused(t, ch) || t == Lt then Fail
      else if t == Amp then Go(RefOpen(InValue(quote))) else Go(st)
    case AfterValue =>
      if IsBlank(t) then Go(BetweenAtts)
      else if t == Sol then Go(Slash(EmptyElementWithAtts))
      else if t == Gt then Done(StartTagWithAtts) else Fail
    case BetweenAtts =>
      if IsNmStrt(enc, t, ch) then Go(AttName(false))
      else if IsBlank(t) then Go(BetweenAtts)
      else if t == Gt then Done(StartTagWithAtts)
      else if t == Sol then Go(Slash(EmptyElementWithAtts)) else Fail
    case _ => Fail
  }

  function RefStep(enc: Encoding, st: State, t: BT, ch: Octets): Move {
    match st
    case RefOpen(place) =>
      if IsNmStrt(enc, t, ch) then Go(RefName(place)) else if t == Num then Go(CharRefOpen(place)) else Fail
    case RefName(place) =>
      if IsNameChar(enc, t, ch) then Go(st) else if t == Semi then EndOfRef(place, EntityRef) else Fail
    case CharRefOpen(place) =>
      if ch == [0x78] then Go(HexOpen(place)) else if t == Digit then Go(Decimal(place)) else Fail
    case Decimal(place) => if t == Digit then Go(st) else if t == Semi then EndOfRef(place, CharRef) else Fail
    case HexOpen(place) => if t == Digit || t == Hex then Go(Hexadecimal(place)) else Fail
    case Hexadecimal(place) =>
      if t == Digit || t == Hex then Go(st) else if t == Semi then EndOfRef(place, CharRef) else Fail
    case _ => Fail
  }

  function Step(enc: Encoding, st: State, t: BT, ch: Octets): Move {
    match st
    case AfterLt =>
      if IsNmStrt(enc, t, ch) then Go(StartName(false))
      else if t == Excl then Go(AfterExcl)
      else if t == Quest then Go(PiOpen)
      else if t == Sol then Go(EndOpen) else Fail
    case AfterExcl =>
      if t == Minus then Go(CommentOpen) else if t == Lsqb then Go(CdataOpen(0, true)) else Fail
    case CommentOpen => if t == Minus then Go(CommentBody) else Fail
    case CommentBody => CommentStep(t, ch)
    case CommentDash => if t == Minus then Go(CommentDashDash) else CommentStep(t, ch)
    case CommentDashDash => if t == Gt then Done(Comment) else Fail
    case CdataOpen(read, matching) =>
      var ok := matching && read < 6 && ch == [CDATA_LSQB[read]];
      if read < 5 then Go(CdataOpen(read + 1, ok)) else if ok then Done(CdataSectOpen) else Fail
    case PiOpen => if IsNmStrt(enc, t, ch) then Go(PiTarget(ch)) else Fail
    case PiTarget(target) =>
      if IsNameChar(enc, t, ch) then Go(PiTarget(target + ch))
      else if (IsBlank(t) || t == Quest) && PiTok(target).Done? then
        Go(if t == Quest then PiTargetQuest(PiTok(target).tok) else PiBody(PiTok(target).tok))
      else Fail
    case PiTargetQuest(tok) => if t == Gt then Done(tok) else Fail
    case PiBody(tok) => PiStep(tok, t, ch)
    case PiQuest(tok) => if t == Gt then Done(tok) else PiStep(tok, t, ch)
    case RefOpen(_) | RefName(_) | CharRefOpen(_) | Decimal(_) | HexOpen(_) | Hexadecimal(_) =>
      RefStep(enc, st, t, ch)
    case _ => TagStep(enc, st, t, ch)
  }

  /** The result of reading from a position: a token and its end, an error, or too little input. */
  datatype Scan = Token(tok: Tok, end: nat) | Invalid | Partial | PartialChar

  /** The length of the next character for a state. */
  function UnitSize(enc: Encoding, st: State, b: byte): (n: nat)
    ensures 1 <= n <= 4
  {
    if TakesLeads(st) then CharSize(ByteType(enc, b)) else 1
  }

  /** The move that the character at position i causes; none when it is not complete. */
  datatype Read = Whole(move: Move, next: nat) | Short

  function ReadAt(enc: Encoding, st: State, s: Octets, i: nat): (r: Read)
    requires i < |s|
    ensures r.Whole? ==> i < r.next <= |s|
  {
    var n := UnitSize(enc, st, s[i]);
    if |s| - i < n then Short else Whole(Step(enc, st, ByteType(enc, s[i]), s[i..i + n]), i + n)
  }

  /** Read on from position i. */
  function Run(enc: Encoding, st: State, s: Octets, i: nat): (r: Scan)
    requires i <= |s|
    ensures r.Token? ==> i < r.end <= |s|
    decreases |s| - i
  {
    if i == |s| then Partial else
      match ReadAt(enc, st, s, i)
      case Short => PartialChar
      case Whole(Fail, _) => Invalid
      case Whole(Done(tok), next) => Token(tok, next)
      case Whole(Go(to), next) => Run(enc, to, s, next)
  }

  lemma ReadStable(enc: Encoding, st: State, a: Octets, b: Octets, i: nat)
    requires i < |a| && ReadAt(enc, st, a, i).Whole?
    ensures ReadAt(enc, st, a + b, i) == ReadAt(enc, st, a, i)
  {
    hide Step, UnitSize, ByteType;
    var n := UnitSize(enc, st, a[i]);
    assert (a + b)[i] == a[i];
    assert (a + b)[i..i + n] == a[i..i + n];
  }

  /** More input changes nothing about a token or an error that is already decided. */
  lemma {:induction false} RunStable(enc: Encoding, st: State, a: Octets, b: Octets, i: nat)
    requires i <= |a|
    requires !Run(enc, st, a, i).Partial? && !Run(enc, st, a, i).PartialChar?
    ensures Run(enc, st, a + b, i) == Run(enc, st, a, i)
    decreases |a| - i
  {
    hide ReadAt;
    ReadStable(enc, st, a, b, i);
    var r := ReadAt(enc, st, a, i);
    if r.move.Go? {
      RunStable(enc, r.move.to, a, b, r.next);
    }
  }

  function Shift(r: Scan, n: nat): Scan {
    if r.Token? then Token(r.tok, n + r.end) else r
  }

  function ShiftRead(r: Read, n: nat): Read {
    if r.Whole? then Whole(r.move, n + r.next) else r
  }

  lemma ReadShift(enc: Encoding, st: State, p: Octets, s: Octets, i: nat)
    requires i < |s|
    ensures ReadAt(enc, st, p + s, |p| + i) == ShiftRead(ReadAt(enc, st, s, i), |p|)
  {
    hide Step, UnitSize, ByteType;
    var n := UnitSize(enc, st, s[i]);
    assert (p + s)[|p| + i] == s[i];
    if |s| - i >= n {
      assert (p + s)[|p| + i..|p| + i + n] == s[i..i + n];
    }
  }

  /** What is read does not depend on what stands before it. */
  lemma {:induction false} RunShift(enc: Encoding, st: State, p: Octets, s: Octets, i: nat)
    requires i <= |s|
    ensures Run(enc, st, p + s, |p| + i) == Shift(Run(enc, st, s, i), |p|)
    decreases |s| - i
  {
    hide ReadAt;
    if i < |s| {
      ReadShift(enc, st, p, s, i);
      var r := ReadAt(enc, st, s, i);
      if r.Whole? && r.move.Go? {
        RunShift(enc, r.move.to, p, s, r.next);
      }
    }
  }
}
