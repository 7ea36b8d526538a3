/** `contentTok` and `cdataSectionTok`: the next token of a buffer that may end anywhere. */
module ContentTokenizer {
  import opened Bytes
  import opened ByteTypes
  import opened ContentAutomaton
  import opened ContentCases
  import opened ContentChunks
  import opened ContentScanner

  /** The XML_TOK_ values of the two tokenizers. */
  datatype Lexeme =
    | LexNone | LexPartial | LexPartialChar | LexTrailingCr | LexTrailingRsqb | LexInvalid
    | LexNewline(end: nat) | LexData(end: nat) | LexMarkup(tok: Tok, end: nat)

  /** Decided data up to a decided error. */
  ghost predicate Doomed(enc: Encoding, mode: Mode, s: Octets, i: nat)
    requires i <= |s|
  {
    exists j :: i <= j < |s| && Chars(enc, mode, s, i, j) && Decided(enc, mode, s, j)
      && AtomAt(enc, mode, s, j) == Fault
  }

  ghost function MarkupOf(mode: Mode, tok: Tok, text: Octets, end: nat): Atom {
    if mode == Cdata then At([Markup(tok, text)], end, Content)
    else if tok == XmlDecl then Fault
    else At([Markup(tok, text)], end, if tok == CdataSectOpen then Cdata else Content)
  }

  /** What a token says about the buffer from i on. */
  ghost predicate Lexed(enc: Encoding, mode: Mode, s: Octets, i: nat, r: Lexeme)
    requires i <= |s|
  {
    match r
    case LexNone => i == |s|
    case LexNewline(end) => i < |s| && Decided(enc, mode, s, i) && AtomAt(enc, mode, s, i) == At([Char(LF)], end, mode)
    case LexData(end) => i < end <= |s| && Chars(enc, mode, s, i, end)
    case LexMarkup(tok, end) =>
      && i < end <= |s| && Decided(enc, mode, s, i)
      && AtomAt(enc, mode, s, i) == MarkupOf(mode, tok, s[i..end], end)
    case LexInvalid => Doomed(enc, mode, s, i)
    case LexPartial | LexPartialChar => Meaning(enc, mode, s, i) == Err
    case LexTrailingCr => mode == Content && i + 1 == |s| && AtomAt(enc, mode, s, i) == At([Char(LF)], |s|, mode)
    case LexTrailingRsqb => mode == Content && Meaning(enc, mode, s, i) == Ok(AsChars(s[i..]))
  }

  /** The data classes of a mode. */
  predicate IsData(mode: Mode, t: BT) {
    t != Cr && t != Lf && (mode == Content ==> t != Lt && t != Amp)
  }

  lemma PlainAt(enc: Encoding, mode: Mode, s: Octets, ptr: nat, n: nat)
    requires ptr < |s| && n == CharSize(ByteType(enc, s[ptr])) && ptr + n <= |s|
    requires IsData(mode, ByteType(enc, s[ptr])) && !Refused(ByteType(enc, s[ptr]), s[ptr..ptr + n])
    requires ByteType(enc, s[ptr]) == Rsqb ==>
               ptr + 1 < |s| && (s[ptr + 1] == ASCII_RSQB ==> ptr + 2 < |s| && s[ptr + 2] != ASCII_GT)
    ensures Chars(enc, mode, s, ptr, ptr + n)
  {
    hide Run, ByteType, AsChars, Refused;
    TypeOfByte(enc, s[ptr]);
    CharsOne(enc, mode, s, ptr, ptr + n);
  }

  lemma BadAt(enc: Encoding, mode: Mode, s: Octets, ptr: nat)
    requires ptr < |s| && CharSize(ByteType(enc, s[ptr])) <= |s| - ptr
    requires Refused(ByteType(enc, s[ptr]), s[ptr..ptr + CharSize(ByteType(enc, s[ptr]))])
    ensures Decided(enc, mode, s, ptr) && AtomAt(enc, mode, s, ptr) == Fault
  {
    hide Run, ByteType, InvalidChar;
    TypeOfByte(enc, s[ptr]);
  }

  lemma ShortAt(enc: Encoding, mode: Mode, s: Octets, ptr: nat)
    requires ptr < |s| && CharSize(ByteType(enc, s[ptr])) > |s| - ptr
    ensures Meaning(enc, mode, s, ptr) == Err
  {
    hide Run, ByteType, InvalidChar;
    TypeOfByte(enc, s[ptr]);
  }

  lemma DoomedAt(enc: Encoding, mode: Mode, s: Octets, i: nat, j: nat)
    requires i <= j < |s| && Chars(enc, mode, s, i, j) && Decided(enc, mode, s, j)
    requires AtomAt(enc, mode, s, j) == Fault
    ensures Doomed(enc, mode, s, i)
  {
    hide Chars, Decided, AtomAt;
  }

  lemma ClosedContent(enc: Encoding, s: Octets, ptr: nat)
    requires ptr < |s| && Closes(s, ptr)
    ensures Decided(enc, Content, s, ptr) && AtomAt(enc, Content, s, ptr) == Fault
  {
    hide Run, ByteType;
    TypeOfByte(enc, s[ptr]);
  }

  /** One round of a data loop: take a character, end the data here, or refuse "]]>". */
  datatype Round = Take(n: nat) | EndData | Refuse

  /** The switch of the data loop of contentTok. */
  function ContentRound(enc: Encoding, s: Octets, ptr: nat): (r: Round)
    requires ptr < |s|
    ensures r.Take? ==> r.n >= 1 && ptr + r.n <= |s|
  {
    var t := ByteType(enc, s[ptr]);
    match t
    case Lead2 | Lead3 | Lead4 =>
      var n := CharSize(t);
      if |s| - ptr < n || InvalidChar(s[ptr..ptr + n]) then EndData else Take(n)
    case Rsqb =>
      if ptr + 1 == |s| then EndData
      else if s[ptr + 1] != ASCII_RSQB then Take(1)
      else if ptr + 2 == |s| then EndData
      else if s[ptr + 2] != ASCII_GT then Take(1)
      else Refuse
    case Amp | Lt | NonXml | Malform | Trail | Cr | Lf => EndData
    case _ => Take(1)
  }

  /** The switch of the data loop of cdataSectionTok. */
  function CdataRound(enc: Encoding, s: Octets, ptr: nat): (r: Round)
    requires ptr < |s|
    ensures r.Take? ==> r.n >= 1 && ptr + r.n <= |s|
    ensures !r.Refuse?
  {
    var t := ByteType(enc, s[ptr]);
    match t
    case Lead2 | Lead3 | Lead4 =>
      var n := CharSize(t);
      if |s| - ptr < n || InvalidChar(s[ptr..ptr + n]) then EndData else Take(n)
    case NonXml | Malform | Trail | Cr | Lf | Rsqb => EndData
    case _ => Take(1)
  }

  lemma RoundTakes(enc: Encoding, mode: Mode, s: Octets, ptr: nat)
    requires ptr < |s|
    ensures var r := if mode == Content then ContentRound(enc, s, ptr) else CdataRound(enc, s, ptr);
            r.Take? ==> Chars(enc, mode, s, ptr, ptr + r.n)
  {
    hide Chars, ByteType, InvalidChar;
    var r := if mode == Content then ContentRound(enc, s, ptr) else CdataRound(enc, s, ptr);
    TypeOfByte(enc, s[ptr]);
    if r.Take? {
      PlainAt(enc, mode, s, ptr, r.n);
    }
  }

  lemma RoundRefuses(enc: Encoding, s: Octets, ptr: nat)
    requires ptr < |s| && ContentRound(enc, s, ptr).Refuse?
    ensures Decided(enc, Content, s, ptr) && AtomAt(enc, Content, s, ptr) == Fault
  {
    hide AtomAt, Decided, ByteType;
    TypeOfByte(enc, s[ptr]);
    ClosedContent(enc, s, ptr);
  }

  /** The data loop of either tokenizer: from is the end of the first character of the data. */
  method ScanData(enc: Encoding, mode: Mode, s: Octets, start: nat, from: nat) returns (r: Lexeme)
    requires start < from <= |s| && Chars(enc, mode, s, start, from)
    ensures Lexed(enc, mode, s, start, r) && (r.LexData? || r == LexInvalid)
  {
    hide Chars, ContentRound, CdataRound, AtomAt, Decided, Doomed, Meaning;
    var ptr := from;
    while ptr != |s|
      invariant start < ptr <= |s| && Chars(enc, mode, s, start, ptr)
      decreases |s| - ptr
    {
      RoundTakes(enc, mode, s, ptr);
      match if mode == Content then ContentRound(enc, s, ptr) else CdataRound(enc, s, ptr)
      case Take(n) =>
        CharsAppend(enc, mode, s, start, ptr, ptr + n);
        ptr := ptr + n;
      case EndData => return LexData(ptr);
      case Refuse =>
        RoundRefuses(enc, s, ptr);
        DoomedAt(enc, mode, s, start, ptr);
        return LexInvalid;
    }
    r := LexData(ptr);
  }

  lemma NewlineAt(enc: Encoding, mode: Mode, s: Octets, ptr: nat)
    requires ptr < |s| && (ByteType(enc, s[ptr]) == Lf || (ByteType(enc, s[ptr]) == Cr && ptr + 1 < |s|))
    ensures var t := ByteType(enc, s[ptr]);
            var end := if t == Cr && ByteType(enc, s[ptr + 1]) == Lf then ptr + 2 else ptr + 1;
            Lexed(enc, mode, s, ptr, LexNewline(end))
  {
    hide ByteType, Chars, Meaning;
    TypeOfByte(enc, s[ptr]);
  }

  lemma TrailingCrAt(enc: Encoding, s: Octets, ptr: nat)
    requires ptr + 1 == |s| && ByteType(enc, s[ptr]) == Cr
    ensures Lexed(enc, Content, s, ptr, LexTrailingCr)
    ensures Lexed(enc, Cdata, s, ptr, LexPartial)
  {
    hide ByteType, Chars;
    TypeOfByte(enc, s[ptr]);
    assert AtomAt(enc, Cdata, s, ptr) == At([Char(LF)], |s|, Cdata);
    assert Meaning(enc, Cdata, s, |s|) == Err;
  }

  lemma BracketAt(enc: Encoding, mode: Mode, s: Octets, ptr: nat)
    requires ptr < |s| && ByteType(enc, s[ptr]) == Rsqb && !Closes(s, ptr)
    ensures AtomAt(enc, mode, s, ptr) == At(AsChars(s[ptr..ptr + 1]), ptr + 1, mode)
  {
    hide ByteType;
    TypeOfByte(enc, s[ptr]);
  }

  lemma MeaningOfEnd(enc: Encoding, mode: Mode, s: Octets)
    ensures Meaning(enc, mode, s, |s|) == if mode == Content then Ok([]) else Err
  {
  }

  /** One or two brackets at the end of a buffer: data at the end of content, too little in a section. */
  lemma TrailingRsqbAt(enc: Encoding, mode: Mode, s: Octets, ptr: nat)
    requires ptr < |s| <= ptr + 2 && ByteType(enc, s[ptr]) == Rsqb
    requires ptr + 2 == |s| ==> s[ptr + 1] == ASCII_RSQB
    ensures Meaning(enc, mode, s, ptr) == if mode == Content then Ok(AsChars(s[ptr..])) else Err
  {
    hide ByteType, AtomAt;
    BracketAt(enc, mode, s, ptr);
    MeaningOfEnd(enc, mode, s);
    var none: seq<Event> := [];
    assert AsChars(s[|s| - 1..]) + none == AsChars(s[|s| - 1..]);
    if ptr + 2 == |s| {
      TypeOfByte(enc, s[ptr + 1]);
      BracketAt(enc, mode, s, ptr + 1);
      assert s[ptr + 1..ptr + 2] == s[|s| - 1..];
      AsCharsAppend(s[ptr..ptr + 1], s[ptr + 1..]);
      assert s[ptr..] == s[ptr..ptr + 1] + s[ptr + 1..];
      assert Meaning(enc, mode, s, ptr + 1) == if mode == Content then Ok(AsChars(s[ptr + 1..])) else Err;
    } else {
      assert s[ptr..] == s[ptr..ptr + 1];
    }
  }

  /** The first character of data: INVALID_CASES or one byte. */
  method ScanFirst(enc: Encoding, mode: Mode, s: Octets, ptr: nat) returns (r: Lexeme)
    requires ptr < |s| && IsData(mode, ByteType(enc, s[ptr])) && ByteType(enc, s[ptr]) != Rsqb
    ensures Lexed(enc, mode, s, ptr, r) && r != LexNone && !r.LexMarkup?
  {
    hide Chars, ByteType, AtomAt, Decided, Doomed, Meaning, InvalidChar;
    match InvalidCases(enc, s, ptr)
    case Return(e) =>
      if e.PartialChar? {
        ShortAt(enc, mode, s, ptr);
        return LexPartialChar;
      }
      BadAt(enc, mode, s, ptr);
      NoChars(enc, mode, s, ptr);
      DoomedAt(enc, mode, s, ptr, ptr);
      return LexInvalid;
    case Advance(n) =>
      PlainAt(enc, mode, s, ptr, n);
      r := ScanData(enc, mode, s, ptr, ptr + n);
    case Otherwise =>
      PlainAt(enc, mode, s, ptr, 1);
      r := ScanData(enc, mode, s, ptr, ptr + 1);
  }

  lemma NoChars(enc: Encoding, mode: Mode, s: Octets, i: nat)
    requires i <= |s|
    ensures Chars(enc, mode, s, i, i)
  {
  }

  /** What a scan that began at "<" or "&" says. */
  lemma MarkupAt(enc: Encoding, s: Octets, ptr: nat, st: State)
    requires ptr < |s|
    requires (ByteType(enc, s[ptr]) == Lt && st == AfterLt) || (ByteType(enc, s[ptr]) == Amp && st == RefOpen(InContent))
    ensures var r := Run(enc, st, s, ptr + 1);
            Lexed(enc, Content, s, ptr, FromScan(r))
  {
    hide Run, ByteType;
    TypeOfByte(enc, s[ptr]);
    var r := Run(enc, st, s, ptr + 1);
    if r == Invalid {
      NoChars(enc, Content, s, ptr);
      DoomedAt(enc, Content, s, ptr, ptr);
    }
  }

  function FromScan(r: Scan): Lexeme {
    match r
    case Token(tok, end) => LexMarkup(tok, end)
    case Invalid => LexInvalid
    case Partial => LexPartial
    case PartialChar => LexPartialChar
  }

  /** contentTok */
  method ContentTok(enc: Encoding, s: Octets, start: nat) returns (r: Lexeme)
    requires start <= |s|
    ensures Lexed(enc, Content, s, start, r) && (start < |s| ==> r != LexNone)
  {
    hide Chars, ByteType, AtomAt, Decided, Doomed, Meaning, Run;
    if start == |s| {
      return LexNone;
    }
    var ptr := start;
    var t := ByteType(enc, s[ptr]);
    TypeOfByte(enc, s[ptr]);
    match t {
      case Lt =>
        MarkupAt(enc, s, ptr, AfterLt);
        var e := ScanLt(enc, s, ptr + 1);
        r := FromScan(e);
      case Amp =>
        MarkupAt(enc, s, ptr, RefOpen(InContent));
        var e := ScanRef(enc, s, ptr + 1, InContent);
        r := FromScan(e);
      case Cr =>
        if ptr + 1 == |s| {
          TrailingCrAt(enc, s, ptr);
          return LexTrailingCr;
        }
        NewlineAt(enc, Content, s, ptr);
        r := LexNewline(if ByteType(enc, s[ptr + 1]) == Lf then ptr + 2 else ptr + 1);
      case Lf =>
        NewlineAt(enc, Content, s, ptr);
        r := LexNewline(ptr + 1);
      case Rsqb =>
        if ptr + 1 == |s| || (s[ptr + 1] == ASCII_RSQB && ptr + 2 == |s|) {
          TrailingRsqbAt(enc, Content, s, ptr);
          return LexTrailingRsqb;
        }
        if s[ptr + 1] == ASCII_RSQB && s[ptr + 2] == ASCII_GT {
          ClosedContent(enc, s, ptr);
          NoChars(enc, Content, s, ptr);
          DoomedAt(enc, Content, s, ptr, ptr);
          return LexInvalid;
        }
        PlainAt(enc, Content, s, ptr, 1);
        r := ScanData(enc, Content, s, ptr, ptr + 1);
      case _ =>
        r := ScanFirst(enc, Content, s, ptr);
    }
  }

  lemma CdataCloseAt(enc: Encoding, s: Octets, ptr: nat)
    requires ptr < |s| && Closes(s, ptr)
    ensures Lexed(enc, Cdata, s, ptr, LexMarkup(CdataSectClose, ptr + 3))
  {
    hide ByteType, Chars, Meaning;
    TypeOfByte(enc, s[ptr]);
  }

  /** cdataSectionTok */
  method CdataSectionTok(enc: Encoding, s: Octets, start: nat) returns (r: Lexeme)
    requires start <= |s|
    ensures Lexed(enc, Cdata, s, start, r) && (start < |s| ==> r != LexNone)
    ensures r.LexMarkup? ==> r.tok == CdataSectClose
  {
    hide Chars, ByteType, AtomAt, Decided, Doomed, Meaning, Run;
    if start == |s| {
      return LexNone;
    }
    var ptr := start;
    var t := ByteType(enc, s[ptr]);
    TypeOfByte(enc, s[ptr]);
    match t {
      case Rsqb =>
        if ptr + 1 == |s| || (s[ptr + 1] == ASCII_RSQB && ptr + 2 == |s|) {
          TrailingRsqbAt(enc, Cdata, s, ptr);
          return LexPartial;
        }
        if s[ptr + 1] == ASCII_RSQB && s[ptr + 2] == ASCII_GT {
          CdataCloseAt(enc, s, ptr);
          return LexMarkup(CdataSectClose, ptr + 3);
        }
        PlainAt(enc, Cdata, s, ptr, 1);
        r := ScanData(enc, Cdata, s, ptr, ptr + 1);
      case Cr =>
        if ptr + 1 == |s| {
          TrailingCrAt(enc, s, ptr);
          return LexPartial;
        }
        NewlineAt(enc, Cdata, s, ptr);
        r := LexNewline(if ByteType(enc, s[ptr + 1]) == Lf then ptr + 2 else ptr + 1);
      case Lf =>
        NewlineAt(enc, Cdata, s, ptr);
        r := LexNewline(ptr + 1);
      case _ =>
        r := ScanFirst(enc, Cdata, s, ptr);
    }
  }
}
