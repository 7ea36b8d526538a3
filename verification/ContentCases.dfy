/** The automaton of element content, state by state, in the form of the switches of the scanners. */
module ContentCases {
  import opened Bytes
  import opened ByteTypes
  import opened ContentAutomaton

  const ASCII_MINUS: byte := 0x2D
  const ASCII_GT: byte := 0x3E
  const ASCII_RSQB: byte := 0x5D
  const ASCII_x: byte := 0x78

  /** CHAR_MATCHES agrees with the byte classes. */
  lemma TypeOfByte(enc: Encoding, b: byte)
    ensures ByteType(enc, b) == Minus <==> b == ASCII_MINUS
    ensures ByteType(enc, b) == Gt <==> b == ASCII_GT
    ensures ByteType(enc, b) == Rsqb <==> b == ASCII_RSQB
    ensures b == ASCII_x ==> ByteType(enc, b) == NmStrt
  {
  }

  /** The groups of switch cases that the scanners share: step over a character, return, or fall to other cases. */
  datatype Check = Advance(n: nat) | Return(r: Scan) | Otherwise

  /** The three LEAD cases of a group, with the test that the group makes. */
  function LeadCase(s: Octets, ptr: nat, n: nat, good: Octets -> bool): (c: Check)
    requires ptr < |s| && n >= 1
    ensures c.Advance? ==> c.n == n && ptr + n <= |s|
    ensures c.Return? ==> !c.r.Token?
  {
    if |s| - ptr < n then Return(PartialChar)
    else if good(s[ptr..ptr + n]) then Advance(n)
    else Return(Invalid)
  }

  /** INVALID_CASES */
  function InvalidCases(enc: Encoding, s: Octets, ptr: nat): (c: Check)
    requires ptr < |s|
    ensures c.Advance? ==> 1 <= c.n && ptr + c.n <= |s|
    ensures c.Return? ==> !c.r.Token?
  {
    var t := ByteType(enc, s[ptr]);
    match t
    case Lead2 | Lead3 | Lead4 => LeadCase(s, ptr, CharSize(t), ch => !InvalidChar(ch))
    case NonXml | Malform | Trail => Return(Invalid)
    case _ => Otherwise
  }

  /** CHECK_NMSTRT_CASES */
  function NmStrtCases(enc: Encoding, s: Octets, ptr: nat): (c: Check)
    requires ptr < |s|
    ensures c.Advance? ==> 1 <= c.n && ptr + c.n <= |s|
    ensures c.Return? ==> !c.r.Token?
  {
    var t := ByteType(enc, s[ptr]);
    match t
    case NmStrt | Hex => Advance(1)
    case Lead2 | Lead3 | Lead4 => LeadCase(s, ptr, CharSize(t), ch => |ch| < 4 && enc.nmStrt(ch))
    case _ => Otherwise
  }

  /** CHECK_NAME_CASES */
  function NameCases(enc: Encoding, s: Octets, ptr: nat): (c: Check)
    requires ptr < |s|
    ensures c.Advance? ==> 1 <= c.n && ptr + c.n <= |s|
    ensures c.Return? ==> !c.r.Token?
  {
    var t := ByteType(enc, s[ptr]);
    match t
    case NmStrt | Hex | Digit | Name | Minus => Advance(1)
    case Lead2 | Lead3 | Lead4 => LeadCase(s, ptr, CharSize(t), ch => |ch| < 4 && enc.nameChar(ch))
    case _ => Otherwise
  }

  /** The first step of a run, for a state and the class of the next byte. */
  lemma RunStep(enc: Encoding, st: State, s: Octets, ptr: nat)
    requires ptr < |s|
    ensures var t := ByteType(enc, s[ptr]);
            var n := if TakesLeads(st) then CharSize(t) else 1;
            Run(enc, st, s, ptr) ==
              if |s| - ptr < n then PartialChar else
                match Step(enc, st, t, s[ptr..ptr + n])
                case Fail => Invalid
                case Done(tok) => Token(tok, ptr + n)
                case Go(to) => Run(enc, to, s, ptr + n)
  {
    hide Step, ByteType, TakesLeads, CharSize;
  }

  lemma RunEnd(enc: Encoding, st: State, s: Octets)
    ensures Run(enc, st, s, |s|) == Partial
  {
  }

  /** What follows a group of cases: the state after a character, or the other cases. */
  ghost function After(enc: Encoding, st: State, s: Octets, ptr: nat, c: Check, others: Scan): Scan
    requires c.Advance? ==> ptr + c.n <= |s|
  {
    match c
    case Advance(n) => Run(enc, st, s, ptr + n)
    case Return(r) => r
    case Otherwise => others
  }

  /** What the group of name cases says about the next character. */
  lemma NameGroup(enc: Encoding, s: Octets, ptr: nat)
    requires ptr < |s|
    ensures var c, t := NameCases(enc, s, ptr), ByteType(enc, s[ptr]);
            var n := CharSize(t);
            && (|s| - ptr < n ==> c == Return(PartialChar))
            && (|s| - ptr >= n && IsNameChar(enc, t, s[ptr..ptr + n]) ==> c == Advance(n))
            && (|s| - ptr >= n && !IsNameChar(enc, t, s[ptr..ptr + n]) ==>
                  c == if n > 1 then Return(Invalid) else Otherwise)
  {
    hide ByteType;
  }

  // ----- the automaton, state by state, as the switches of the scanners

  lemma AtCommentOpen(enc: Encoding, s: Octets, ptr: nat)
    requires ptr < |s|
    ensures Run(enc, CommentOpen, s, ptr) ==
            if s[ptr] == ASCII_MINUS then Run(enc, CommentBody, s, ptr + 1) else Invalid
  {
    hide Run, ByteType;
    RunStep(enc, CommentOpen, s, ptr);
    TypeOfByte(enc, s[ptr]);
  }

  lemma AtCommentBody(enc: Encoding, s: Octets, ptr: nat)
    requires ptr < |s|
    ensures Run(enc, CommentBody, s, ptr) == After(enc, CommentBody, s, ptr, InvalidCases(enc, s, ptr),
              Run(enc, if ByteType(enc, s[ptr]) == Minus then CommentDash else CommentBody, s, ptr + 1))
  {
    hide Run, ByteType, InvalidChar;
    RunStep(enc, CommentBody, s, ptr);
  }

  lemma AtCommentDash(enc: Encoding, s: Octets, ptr: nat)
    requires ptr < |s|
    ensures Run(enc, CommentDash, s, ptr) ==
            if s[ptr] == ASCII_MINUS then Run(enc, CommentDashDash, s, ptr + 1) else Run(enc, CommentBody, s, ptr)
  {
    hide Run, ByteType, InvalidChar;
    RunStep(enc, CommentDash, s, ptr);
    RunStep(enc, CommentBody, s, ptr);
    TypeOfByte(enc, s[ptr]);
  }

  lemma AtCommentDashDash(enc: Encoding, s: Octets, ptr: nat)
    requires ptr < |s|
    ensures Run(enc, CommentDashDash, s, ptr) == if s[ptr] == ASCII_GT then Token(Comment, ptr + 1) else Invalid
  {
    hide Run, ByteType;
    RunStep(enc, CommentDashDash, s, ptr);
    TypeOfByte(enc, s[ptr]);
  }

  lemma AtPiOpen(enc: Encoding, s: Octets, ptr: nat)
    requires ptr < |s|
    ensures var c := NmStrtCases(enc, s, ptr);
            Run(enc, PiOpen, s, ptr) ==
            After(enc, PiTarget(if c.Advance? then s[ptr..ptr + c.n] else []), s, ptr, c, Invalid)
  {
    hide Run, ByteType;
    RunStep(enc, PiOpen, s, ptr);
  }

  lemma AtPiTarget(enc: Encoding, target: Octets, s: Octets, ptr: nat)
    requires ptr < |s|
    ensures var c, t, p := NameCases(enc, s, ptr), ByteType(enc, s[ptr]), PiTok(target);
            Run(enc, PiTarget(target), s, ptr) ==
            After(enc, PiTarget(target + if c.Advance? then s[ptr..ptr + c.n] else []), s, ptr, c,
              if (!IsBlank(t) && t != Quest) || !p.Done? then Invalid
              else Run(enc, if t == Quest then PiTargetQuest(p.tok) else PiBody(p.tok), s, ptr + 1))
  {
    hide Run, ByteType, PiTok;
    RunStep(enc, PiTarget(target), s, ptr);
  }

  lemma AtPiTargetQuest(enc: Encoding, tok: Tok, s: Octets, ptr: nat)
    requires ptr < |s|
    ensures Run(enc, PiTargetQuest(tok), s, ptr) == if s[ptr] == ASCII_GT then Token(tok, ptr + 1) else Invalid
  {
    hide Run, ByteType;
    RunStep(enc, PiTargetQuest(tok), s, ptr);
    TypeOfByte(enc, s[ptr]);
  }

  lemma AtPiBody(enc: Encoding, tok: Tok, s: Octets, ptr: nat)
    requires ptr < |s|
    ensures Run(enc, PiBody(tok), s, ptr) == After(enc, PiBody(tok), s, ptr, InvalidCases(enc, s, ptr),
              Run(enc, if ByteType(enc, s[ptr]) == Quest then PiQuest(tok) else PiBody(tok), s, ptr + 1))
  {
    hide Run, ByteType, InvalidChar;
    RunStep(enc, PiBody(tok), s, ptr);
  }

  lemma AtPiQuest(enc: Encoding, tok: Tok, s: Octets, ptr: nat)
    requires ptr < |s|
    ensures Run(enc, PiQuest(tok), s, ptr) ==
            if s[ptr] == ASCII_GT then Token(tok, ptr + 1) else Run(enc, PiBody(tok), s, ptr)
  {
    hide Run, ByteType, InvalidChar;
    RunStep(enc, PiQuest(tok), s, ptr);
    RunStep(enc, PiBody(tok), s, ptr);
    TypeOfByte(enc, s[ptr]);
  }

  lemma AtCdataOpen(enc: Encoding, read: nat, matching: bool, s: Octets, ptr: nat)
    requires ptr < |s| && read < 6
    ensures var ok := matching && s[ptr] == CDATA_LSQB[read];
            Run(enc, CdataOpen(read, matching), s, ptr) ==
            if read < 5 then Run(enc, CdataOpen(read + 1, ok), s, ptr + 1)
            else if ok then Token(CdataSectOpen, ptr + 1) else Invalid
  {
    hide Run, ByteType;
    RunStep(enc, CdataOpen(read, matching), s, ptr);
  }

  lemma AtEndOpen(enc: Encoding, s: Octets, ptr: nat)
    requires ptr < |s|
    ensures Run(enc, EndOpen, s, ptr) == After(enc, EndName, s, ptr, NmStrtCases(enc, s, ptr), Invalid)
  {
    hide Run, ByteType;
    RunStep(enc, EndOpen, s, ptr);
  }

  lemma AtEndName(enc: Encoding, s: Octets, ptr: nat)
    requires ptr < |s|
    ensures var t := ByteType(enc, s[ptr]);
            Run(enc, EndName, s, ptr) == After(enc, EndName, s, ptr, NameCases(enc, s, ptr),
              if t == Colon then Run(enc, EndName, s, ptr + 1)
              else if IsBlank(t) then Run(enc, EndSpace, s, ptr + 1)
              else if t == Gt then Token(EndTag, ptr + 1) else Invalid)
  {
    hide Run, ByteType, NameCases, IsNameChar;
    NameGroup(enc, s, ptr);
    RunStep(enc, EndName, s, ptr);
  }

  lemma AtEndSpace(enc: Encoding, s: Octets, ptr: nat)
    requires ptr < |s|
    ensures var t := ByteType(enc, s[ptr]);
            Run(enc, EndSpace, s, ptr) ==
            if IsBlank(t) then Run(enc, EndSpace, s, ptr + 1)
            else if t == Gt then Token(EndTag, ptr + 1) else Invalid
  {
    hide Run, ByteType;
    RunStep(enc, EndSpace, s, ptr);
  }

  lemma AtAfterLt(enc: Encoding, s: Octets, ptr: nat)
    requires ptr < |s|
    ensures var t := ByteType(enc, s[ptr]);
            Run(enc, AfterLt, s, ptr) == After(enc, StartName(false), s, ptr, NmStrtCases(enc, s, ptr),
              if t == Excl then Run(enc, AfterExcl, s, ptr + 1)
              else if t == Quest then Run(enc, PiOpen, s, ptr + 1)
              else if t == Sol then Run(enc, EndOpen, s, ptr + 1) else Invalid)
  {
    hide Run, ByteType;
    RunStep(enc, AfterLt, s, ptr);
  }

  lemma AtAfterExcl(enc: Encoding, s: Octets, ptr: nat)
    requires ptr < |s|
    ensures var t := ByteType(enc, s[ptr]);
            Run(enc, AfterExcl, s, ptr) ==
            if t == Minus then Run(enc, CommentOpen, s, ptr + 1)
            else if t == Lsqb then Run(enc, CdataOpen(0, true), s, ptr + 1) else Invalid
  {
    hide Run, ByteType;
    RunStep(enc, AfterExcl, s, ptr);
  }

  lemma AtStartName(enc: Encoding, hadColon: bool, s: Octets, ptr: nat)
    requires ptr < |s|
    ensures var t := ByteType(enc, s[ptr]);
            Run(enc, StartName(hadColon), s, ptr) ==
            After(enc, StartName(hadColon), s, ptr, NameCases(enc, s, ptr),
              if t == Colon then if hadColon then Invalid else Run(enc, StartColon, s, ptr + 1)
              else if IsBlank(t) then Run(enc, StartSpace, s, ptr + 1)
              else if t == Gt then Token(StartTagNoAtts, ptr + 1)
              else if t == Sol then Run(enc, Slash(EmptyElementNoAtts), s, ptr + 1) else Invalid)
  {
    hide Run, ByteType, NameCases, IsNameChar;
    NameGroup(enc, s, ptr);
    RunStep(enc, StartName(hadColon), s, ptr);
  }

  lemma AtStartColon(enc: Encoding, s: Octets, ptr: nat)
    requires ptr < |s|
    ensures Run(enc, StartColon, s, ptr) == After(enc, StartName(true), s, ptr, NmStrtCases(enc, s, ptr), Invalid)
  {
    hide Run, ByteType;
    RunStep(enc, StartColon, s, ptr);
  }

  lemma AtStartSpace(enc: Encoding, s: Octets, ptr: nat)
    requires ptr < |s|
    ensures var t := ByteType(enc, s[ptr]);
            Run(enc, StartSpace, s, ptr) == After(enc, AttName(false), s, ptr, NmStrtCases(enc, s, ptr),
              if IsBlank(t) then Run(enc, StartSpace, s, ptr + 1)
              else if t == Gt then Token(StartTagNoAtts, ptr + 1)
              else if t == Sol then Run(enc, Slash(EmptyElementNoAtts), s, ptr + 1) else Invalid)
  {
    hide Run, ByteType;
    RunStep(enc, StartSpace, s, ptr);
  }

  lemma AtSlash(enc: Encoding, empty: Tok, s: Octets, ptr: nat)
    requires ptr < |s|
    ensures Run(enc, Slash(empty), s, ptr) == if s[ptr] == ASCII_GT then Token(empty, ptr + 1) else Invalid
  {
    hide Run, ByteType;
    RunStep(enc, Slash(empty), s, ptr);
    TypeOfByte(enc, s[ptr]);
  }

  lemma AtAttName(enc: Encoding, hadColon: bool, s: Octets, ptr: nat)
    requires ptr < |s|
    ensures var t := ByteType(enc, s[ptr]);
            Run(enc, AttName(hadColon), s, ptr) ==
            After(enc, AttName(hadColon), s, ptr, NameCases(enc, s, ptr),
              if t == Colon then if hadColon then Invalid else Run(enc, AttColon, s, ptr + 1)
              else if IsBlank(t) then Run(enc, AttSpace, s, ptr + 1)
              else if t == Equals then Run(enc, AttEquals, s, ptr + 1) else Invalid)
  {
    hide Run, ByteType, NameCases, IsNameChar;
    NameGroup(enc, s, ptr);
    RunStep(enc, AttName(hadColon), s, ptr);
  }

  lemma AtAttColon(enc: Encoding, s: Octets, ptr: nat)
    requires ptr < |s|
    ensures Run(enc, AttColon, s, ptr) == After(enc, AttName(true), s, ptr, NmStrtCases(enc, s, ptr), Invalid)
  {
    hide Run, ByteType;
    RunStep(enc, AttColon, s, ptr);
  }

  lemma AtAttSpace(enc: Encoding, s: Octets, ptr: nat)
    requires ptr < |s|
    ensures var t := ByteType(enc, s[ptr]);
            Run(enc, AttSpace, s, ptr) ==
            if t == Equals then Run(enc, AttEquals, s, ptr + 1)
            else if IsBlank(t) then Run(enc, AttSpace, s, ptr + 1) else Invalid
  {
    hide Run, ByteType;
    RunStep(enc, AttSpace, s, ptr);
  }

  lemma AtAttEquals(enc: Encoding, s: Octets, ptr: nat)
    requires ptr < |s|
    ensures var t := ByteType(enc, s[ptr]);
            Run(enc, AttEquals, s, ptr) ==
            if t == Quot || t == Apos then Run(enc, Value(t), s, ptr + 1)
            else if IsBlank(t) then Run(enc, AttEquals, s, ptr + 1) else Invalid
  {
    hide Run, ByteType;
    RunStep(enc, AttEquals, s, ptr);
  }

  lemma AtValue(enc: Encoding, quote: BT, s: Octets, ptr: nat)
    requires ptr < |s| && (quote == Quot || quote == Apos)
    ensures var t := ByteType(enc, s[ptr]);
            Run(enc, Value(quote), s, ptr) ==
            if t == quote then Run(enc, AfterValue, s, ptr + 1)
            else After(enc, Value(quote), s, ptr, InvalidCases(enc, s, ptr),
              if t == Amp then Run(enc, RefOpen(InValue(quote)), s, ptr + 1)
              else if t == Lt then Invalid else Run(enc, Value(quote), s, ptr + 1))
  {
    hide Run, ByteType, InvalidChar;
    RunStep(enc, Value(quote), s, ptr);
  }

  lemma AtAfterValue(enc: Encoding, s: Octets, ptr: nat)
    requires ptr < |s|
    ensures var t := ByteType(enc, s[ptr]);
            Run(enc, AfterValue, s, ptr) ==
            if IsBlank(t) then Run(enc, BetweenAtts, s, ptr + 1)
            else if t == Sol then Run(enc, Slash(EmptyElementWithAtts), s, ptr + 1)
            else if t == Gt then Token(StartTagWithAtts, ptr + 1) else Invalid
  {
    hide Run, ByteType;
    RunStep(enc, AfterValue, s, ptr);
  }

  lemma AtBetweenAtts(enc: Encoding, s: Octets, ptr: nat)
    requires ptr < |s|
    ensures var t := ByteType(enc, s[ptr]);
            Run(enc, BetweenAtts, s, ptr) == After(enc, AttName(false), s, ptr, NmStrtCases(enc, s, ptr),
              if IsBlank(t) then Run(enc, BetweenAtts, s, ptr + 1)
              else if t == Gt then Token(StartTagWithAtts, ptr + 1)
              else if t == Sol then Run(enc, Slash(EmptyElementWithAtts), s, ptr + 1) else Invalid)
  {
    hide Run, ByteType;
    RunStep(enc, BetweenAtts, s, ptr);
  }

  /** What follows a complete reference. */
  ghost function RefDone(enc: Encoding, place: Place, tok: Tok, s: Octets, next: nat): Scan
    requires next <= |s|
  {
    match place
    case InContent => Token(tok, next)
    case InValue(quote) => Run(enc, Value(quote), s, next)
  }

  lemma AtRefOpen(enc: Encoding, place: Place, s: Octets, ptr: nat)
    requires ptr < |s|
    ensures Run(enc, RefOpen(place), s, ptr) == After(enc, RefName(place), s, ptr, NmStrtCases(enc, s, ptr),
              if ByteType(enc, s[ptr]) == Num then Run(enc, CharRefOpen(place), s, ptr + 1) else Invalid)
  {
    hide Run, ByteType;
    RunStep(enc, RefOpen(place), s, ptr);
  }

  lemma AtRefName(enc: Encoding, place: Place, s: Octets, ptr: nat)
    requires ptr < |s|
    ensures Run(enc, RefName(place), s, ptr) == After(enc, RefName(place), s, ptr, NameCases(enc, s, ptr),
              if ByteType(enc, s[ptr]) == Semi then RefDone(enc, place, EntityRef, s, ptr + 1) else Invalid)
  {
    hide Run, ByteType;
    RunStep(enc, RefName(place), s, ptr);
  }

  lemma AtCharRefOpen(enc: Encoding, place: Place, s: Octets, ptr: nat)
    requires ptr < |s|
    ensures Run(enc, CharRefOpen(place), s, ptr) ==
            if s[ptr] == ASCII_x then Run(enc, HexOpen(place), s, ptr + 1)
            else if ByteType(enc, s[ptr]) == Digit then Run(enc, Decimal(place), s, ptr + 1) else Invalid
  {
    hide Run, ByteType;
    RunStep(enc, CharRefOpen(place), s, ptr);
    TypeOfByte(enc, s[ptr]);
  }

  lemma AtDecimal(enc: Encoding, place: Place, s: Octets, ptr: nat)
    requires ptr < |s|
    ensures var t := ByteType(enc, s[ptr]);
            Run(enc, Decimal(place), s, ptr) ==
            if t == Digit then Run(enc, Decimal(place), s, ptr + 1)
            else if t == Semi then RefDone(enc, place, CharRef, s, ptr + 1) else Invalid
  {
    hide Run, ByteType;
    RunStep(enc, Decimal(place), s, ptr);
  }

  lemma AtHexOpen(enc: Encoding, place: Place, s: Octets, ptr: nat)
    requires ptr < |s|
    ensures var t := ByteType(enc, s[ptr]);
            Run(enc, HexOpen(place), s, ptr) ==
            if t == Digit || t == Hex then Run(enc, Hexadecimal(place), s, ptr + 1) else Invalid
  {
    hide Run, ByteType;
    RunStep(enc, HexOpen(place), s, ptr);
  }

  lemma AtHexadecimal(enc: Encoding, place: Place, s: Octets, ptr: nat)
    requires ptr < |s|
    ensures var t := ByteType(enc, s[ptr]);
            Run(enc, Hexadecimal(place), s, ptr) ==
            if t == Digit || t == Hex then Run(enc, Hexadecimal(place), s, ptr + 1)
            else if t == Semi then RefDone(enc, place, CharRef, s, ptr + 1) else Invalid
  {
    hide Run, ByteType;
    RunStep(enc, Hexadecimal(place), s, ptr);
  }
}
