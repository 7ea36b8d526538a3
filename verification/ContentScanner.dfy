/** The scanners of element content: loops over a buffer that may end anywhere. */
module ContentScanner {
  import opened Bytes
  import opened ByteTypes
  import opened ContentAutomaton
  import opened ContentCases

  /** scanComment: ptr points after "<!-". */
  method ScanComment(enc: Encoding, s: Octets, start: nat) returns (r: Scan)
    requires start <= |s|
    ensures r == Run(enc, CommentOpen, s, start)
  {
    hide Run, ByteType, InvalidCases;
    var ptr := start;
    RunEnd(enc, CommentOpen, s);
    if ptr != |s| {
      AtCommentOpen(enc, s, ptr);
      if s[ptr] != ASCII_MINUS {
        return Invalid;
      }
      ptr := ptr + 1;
      while ptr != |s|
        invariant ptr <= |s| && Run(enc, CommentBody, s, ptr) == Run(enc, CommentOpen, s, start)
        decreases |s| - ptr
      {
        AtCommentBody(enc, s, ptr);
        match InvalidCases(enc, s, ptr)
        case Return(e) => return e;
        case Advance(n) => ptr := ptr + n;
        case Otherwise =>
          var t := ByteType(enc, s[ptr]);
          ptr := ptr + 1;
          if t == Minus {
            if ptr == |s| {
              RunEnd(enc, CommentDash, s);
              return Partial;
            }
            AtCommentDash(enc, s, ptr);
            if s[ptr] == ASCII_MINUS {
              ptr := ptr + 1;
              if ptr == |s| {
                RunEnd(enc, CommentDashDash, s);
                return Partial;
              }
              AtCommentDashDash(enc, s, ptr);
              if s[ptr] != ASCII_GT {
                return Invalid;
              }
              return Token(Comment, ptr + 1);
            }
          }
      }
      RunEnd(enc, CommentBody, s);
    }
    r := Partial;
  }

  /** scanPi: ptr points after "<?". */
  method ScanPi(enc: Encoding, s: Octets, start: nat) returns (r: Scan)
    requires start <= |s|
    ensures r == Run(enc, PiOpen, s, start)
  {
    hide Run, ByteType, NmStrtCases, NameCases, PiTok;
    var ptr := start;
    if ptr == |s| {
      RunEnd(enc, PiOpen, s);
      return Partial;
    }
    AtPiOpen(enc, s, ptr);
    match NmStrtCases(enc, s, ptr)
    case Return(e) => return e;
    case Otherwise => return Invalid;
    case Advance(n) =>
      ptr := ptr + n;
      while ptr != |s|
        invariant start <= ptr <= |s| && Run(enc, PiTarget(s[start..ptr]), s, ptr) == Run(enc, PiOpen, s, start)
        decreases |s| - ptr
      {
        AtPiTarget(enc, s[start..ptr], s, ptr);
        match NameCases(enc, s, ptr)
        case Return(e) => return e;
        case Advance(k) =>
          assert s[start..ptr + k] == s[start..ptr] + s[ptr..ptr + k];
          ptr := ptr + k;
        case Otherwise =>
          var t := ByteType(enc, s[ptr]);
          var p := PiTok(s[start..ptr]);
          if IsBlank(t) && p.Done? {
            r := ScanPiBody(enc, p.tok, s, ptr + 1);
            return;
          } else if t == Quest && p.Done? {
            ptr := ptr + 1;
            if ptr == |s| {
              RunEnd(enc, PiTargetQuest(p.tok), s);
              return Partial;
            }
            AtPiTargetQuest(enc, p.tok, s, ptr);
            if s[ptr] == ASCII_GT {
              return Token(p.tok, ptr + 1);
            }
          }
          return Invalid;
      }
      RunEnd(enc, PiTarget(s[start..ptr]), s);
      r := Partial;
  }

  /** The inner loop of scanPi, after the white space that ends the target. */
  method ScanPiBody(enc: Encoding, tok: Tok, s: Octets, start: nat) returns (r: Scan)
    requires start <= |s|
    ensures r == Run(enc, PiBody(tok), s, start)
  {
    hide Run, ByteType, InvalidCases;
    var ptr := start;
    while ptr != |s|
      invariant ptr <= |s| && Run(enc, PiBody(tok), s, ptr) == Run(enc, PiBody(tok), s, start)
      decreases |s| - ptr
    {
      AtPiBody(enc, tok, s, ptr);
      match InvalidCases(enc, s, ptr)
      case Return(e) => return e;
      case Advance(n) => ptr := ptr + n;
      case Otherwise =>
        var t := ByteType(enc, s[ptr]);
        ptr := ptr + 1;
        if t == Quest {
          if ptr == |s| {
            RunEnd(enc, PiQuest(tok), s);
            return Partial;
          }
          AtPiQuest(enc, tok, s, ptr);
          if s[ptr] == ASCII_GT {
            return Token(tok, ptr + 1);
          }
        }
    }
    RunEnd(enc, PiBody(tok), s);
    r := Partial;
  }

  /** scanCdataSection: ptr points after "<![". */
  method ScanCdataSection(enc: Encoding, s: Octets, start: nat) returns (r: Scan)
    requires start <= |s|
    ensures r == Run(enc, CdataOpen(0, true), s, start)
  {
    hide Run;
    if |s| - start < 6 {
      CdataShort(enc, 0, true, s, start);
      return Partial;
    }
    var i, ptr := 0, start;
    while i < 6
      invariant i <= 6 && ptr == start + i
      invariant i < 6 ==> Run(enc, CdataOpen(i, true), s, ptr) == Run(enc, CdataOpen(0, true), s, start)
      invariant i == 6 ==> Run(enc, CdataOpen(0, true), s, start) == Token(CdataSectOpen, ptr)
    {
      AtCdataOpen(enc, i, true, s, ptr);
      if s[ptr] != CDATA_LSQB[i] {
        CdataMismatch(enc, i, s, ptr);
        return Invalid;
      }
      i, ptr := i + 1, ptr + 1;
    }
    r := Token(CdataSectOpen, ptr);
  }

  lemma {:induction false} CdataShort(enc: Encoding, read: nat, matching: bool, s: Octets, ptr: nat)
    requires read <= 5 && ptr <= |s| && |s| - ptr + read < 6
    ensures Run(enc, CdataOpen(read, matching), s, ptr) == Partial
    decreases |s| - ptr
  {
    hide Run;
    if ptr == |s| {
      RunEnd(enc, CdataOpen(read, matching), s);
    } else {
      AtCdataOpen(enc, read, matching, s, ptr);
      CdataShort(enc, read + 1, matching && s[ptr] == CDATA_LSQB[read], s, ptr + 1);
    }
  }

  lemma {:induction false} CdataMismatch(enc: Encoding, read: nat, s: Octets, ptr: nat)
    requires read <= 5 && |s| - ptr + read >= 6 && ptr < |s|
    requires s[ptr] != CDATA_LSQB[read]
    ensures Run(enc, CdataOpen(read, true), s, ptr) == Invalid
  {
    hide Run;
    AtCdataOpen(enc, read, true, s, ptr);
    if read < 5 {
      CdataRefused(enc, read + 1, s, ptr + 1);
    }
  }

  lemma {:induction false} CdataRefused(enc: Encoding, read: nat, s: Octets, ptr: nat)
    requires read <= 5 && |s| - ptr + read >= 6
    ensures Run(enc, CdataOpen(read, false), s, ptr) == Invalid
    decreases 5 - read
  {
    hide Run;
    AtCdataOpen(enc, read, false, s, ptr);
    if read < 5 {
      CdataRefused(enc, read + 1, s, ptr + 1);
    }
  }

  /** White space after the name in an end tag. */
  method ScanEndSpace(enc: Encoding, s: Octets, start: nat) returns (r: Scan)
    requires start <= |s|
    ensures r == Run(enc, EndSpace, s, start)
  {
    hide Run, ByteType;
    var ptr := start;
    while ptr != |s|
      invariant ptr <= |s| && Run(enc, EndSpace, s, ptr) == Run(enc, EndSpace, s, start)
      decreases |s| - ptr
    {
      AtEndSpace(enc, s, ptr);
      var t := ByteType(enc, s[ptr]);
      if t == Gt {
        return Token(EndTag, ptr + 1);
      } else if !IsBlank(t) {
        return Invalid;
      }
      ptr := ptr + 1;
    }
    RunEnd(enc, EndSpace, s);
    r := Partial;
  }

  /** scanEndTag: ptr points after "</". */
  method ScanEndTag(enc: Encoding, s: Octets, start: nat) returns (r: Scan)
    requires start <= |s|
    ensures r == Run(enc, EndOpen, s, start)
  {
    hide Run, ByteType, NmStrtCases, NameCases;
    var ptr := start;
    if ptr == |s| {
      RunEnd(enc, EndOpen, s);
      return Partial;
    }
    AtEndOpen(enc, s, ptr);
    match NmStrtCases(enc, s, ptr)
    case Return(e) => return e;
    case Otherwise => return Invalid;
    case Advance(n) =>
      ptr := ptr + n;
      while ptr != |s|
        invariant ptr <= |s| && Run(enc, EndName, s, ptr) == Run(enc, EndOpen, s, start)
        decreases |s| - ptr
      {
        AtEndName(enc, s, ptr);
        match NameCases(enc, s, ptr)
        case Return(e) => return e;
        case Advance(k) => ptr := ptr + k;
        case Otherwise =>
          var t := ByteType(enc, s[ptr]);
          ptr := ptr + 1;
          if IsBlank(t) {
            r := ScanEndSpace(enc, s, ptr);
            return;
          } else if t == Gt {
            return Token(EndTag, ptr);
          } else if t != Colon {
            return Invalid;
          }
      }
      RunEnd(enc, EndName, s);
      r := Partial;
  }

  /** A reference scanner returns at the semicolon; inside a value the automaton goes on from there. */
  ghost predicate ScansRef(r: Scan, enc: Encoding, st: State, place: Place, s: Octets, start: nat)
    requires start <= |s|
  {
    && (r.Token? ==> start < r.end <= |s| && Run(enc, st, s, start) == RefDone(enc, place, r.tok, s, r.end))
    && (!r.Token? ==> Run(enc, st, s, start) == r)
  }

  /** scanHexCharRef: ptr points after "&#x". */
  method ScanHexCharRef(enc: Encoding, s: Octets, start: nat, ghost place: Place) returns (r: Scan)
    requires start <= |s|
    ensures ScansRef(r, enc, HexOpen(place), place, s, start)
    ensures r.Token? ==> r.tok == CharRef && start + 2 <= r.end
  {
    hide Run, ByteType, RefDone;
    var ptr := start;
    RunEnd(enc, HexOpen(place), s);
    if ptr != |s| {
      AtHexOpen(enc, place, s, ptr);
      var t := ByteType(enc, s[ptr]);
      if t != Digit && t != Hex {
        return Invalid;
      }
      ptr := ptr + 1;
      while ptr != |s|
        invariant start < ptr <= |s| && Run(enc, Hexadecimal(place), s, ptr) == Run(enc, HexOpen(place), s, start)
        decreases |s| - ptr
      {
        AtHexadecimal(enc, place, s, ptr);
        var u := ByteType(enc, s[ptr]);
        ptr := ptr + 1;
        if u == Semi {
          return Token(CharRef, ptr);
        } else if u != Digit && u != Hex {
          return Invalid;
        }
      }
      RunEnd(enc, Hexadecimal(place), s);
    }
    r := Partial;
  }

  /** scanCharRef: ptr points after "&#". */
  method ScanCharRef(enc: Encoding, s: Octets, start: nat, ghost place: Place) returns (r: Scan)
    requires start <= |s|
    ensures ScansRef(r, enc, CharRefOpen(place), place, s, start)
    ensures r.Token? ==> r.tok == CharRef && start + 2 <= r.end
  {
    hide Run, ByteType, RefDone;
    var ptr := start;
    RunEnd(enc, CharRefOpen(place), s);
    if ptr != |s| {
      AtCharRefOpen(enc, place, s, ptr);
      if s[ptr] == ASCII_x {
        r := ScanHexCharRef(enc, s, ptr + 1, place);
        return;
      }
      if ByteType(enc, s[ptr]) != Digit {
        return Invalid;
      }
      ptr := ptr + 1;
      while ptr != |s|
        invariant start < ptr <= |s| && Run(enc, Decimal(place), s, ptr) == Run(enc, CharRefOpen(place), s, start)
        decreases |s| - ptr
      {
        AtDecimal(enc, place, s, ptr);
        var u := ByteType(enc, s[ptr]);
        ptr := ptr + 1;
        if u == Semi {
          return Token(CharRef, ptr);
        } else if u != Digit {
          return Invalid;
        }
      }
      RunEnd(enc, Decimal(place), s);
    }
    r := Partial;
  }

  /** scanRef: ptr points after "&". */
  method ScanRef(enc: Encoding, s: Octets, start: nat, ghost place: Place) returns (r: Scan)
    requires start <= |s|
    ensures ScansRef(r, enc, RefOpen(place), place, s, start)
    ensures r.Token? ==> r.tok == EntityRef || (r.tok == CharRef && start + 3 <= r.end)
  {
    hide Run, ByteType, RefDone, NmStrtCases, NameCases;
    var ptr := start;
    if ptr == |s| {
      RunEnd(enc, RefOpen(place), s);
      return Partial;
    }
    AtRefOpen(enc, place, s, ptr);
    match NmStrtCases(enc, s, ptr)
    case Return(e) => return e;
    case Otherwise =>
      if ByteType(enc, s[ptr]) == Num {
        r := ScanCharRef(enc, s, ptr + 1, place);
        return;
      }
      return Invalid;
    case Advance(n) =>
      ptr := ptr + n;
      while ptr != |s|
        invariant start < ptr <= |s| && Run(enc, RefName(place), s, ptr) == Run(enc, RefOpen(place), s, start)
        decreases |s| - ptr
      {
        AtRefName(enc, place, s, ptr);
        match NameCases(enc, s, ptr)
        case Return(e) => return e;
        case Advance(k) => ptr := ptr + k;
        case Otherwise =>
          if ByteType(enc, s[ptr]) == Semi {
            return Token(EntityRef, ptr + 1);
          }
          return Invalid;
      }
      RunEnd(enc, RefName(place), s);
      r := Partial;
  }

  /** Either the scan is over, or it goes on from here with the first characters of an attribute name. */
  datatype Phase = Over(r: Scan) | Next(ptr: nat)

  ghost predicate Reaches(p: Phase, enc: Encoding, st: State, s: Octets, start: nat, next: State)
    requires start <= |s|
  {
    match p
    case Over(r) => Run(enc, st, s, start) == r
    case Next(ptr) => start < ptr <= |s| && Run(enc, st, s, start) == Run(enc, next, s, ptr)
  }

  /** The end of an empty-element tag: ptr points after "/". */
  method ScanSol(enc: Encoding, empty: Tok, s: Octets, start: nat) returns (r: Scan)
    requires start <= |s|
    ensures r == Run(enc, Slash(empty), s, start)
  {
    hide Run;
    if start == |s| {
      RunEnd(enc, Slash(empty), s);
      return Partial;
    }
    AtSlash(enc, empty, s, start);
    r := if s[start] == ASCII_GT then Token(empty, start + 1) else Invalid;
  }

  /** From the equals sign to the opening quote. */
  method ScanToQuote(enc: Encoding, s: Octets, start: nat) returns (p: Phase, open: BT)
    requires start <= |s|
    ensures open == Quot || open == Apos
    ensures Reaches(p, enc, AttEquals, s, start, Value(open))
  {
    hide Run, ByteType;
    open := Quot;
    var ptr := start;
    while ptr != |s|
      invariant start <= ptr <= |s| && Run(enc, AttEquals, s, ptr) == Run(enc, AttEquals, s, start)
      decreases |s| - ptr
    {
      AtAttEquals(enc, s, ptr);
      var t := ByteType(enc, s[ptr]);
      ptr := ptr + 1;
      if t == Quot || t == Apos {
        open := t;
        return Next(ptr), t;
      } else if !IsBlank(t) {
        return Over(Invalid), Quot;
      }
    }
    RunEnd(enc, AttEquals, s);
    p := Over(Partial);
  }

  /** The loop in an attribute value, up to the closing quote. */
  method ScanValue(enc: Encoding, open: BT, s: Octets, start: nat) returns (p: Phase)
    requires start <= |s| && (open == Quot || open == Apos)
    ensures Reaches(p, enc, Value(open), s, start, AfterValue)
  {
    hide Run, ByteType, InvalidCases;
    var ptr := start;
    while ptr != |s|
      invariant start <= ptr <= |s| && Run(enc, Value(open), s, ptr) == Run(enc, Value(open), s, start)
      decreases |s| - ptr
    {
      AtValue(enc, open, s, ptr);
      var t := ByteType(enc, s[ptr]);
      if t == open {
        return Next(ptr + 1);
      }
      match InvalidCases(enc, s, ptr)
      case Return(e) => return Over(e);
      case Advance(n) => ptr := ptr + n;
      case Otherwise =>
        if t == Amp {
          var r := ScanRef(enc, s, ptr + 1, InValue(open));
          if !r.Token? {
            return Over(r);
          }
          ptr := r.end;
        } else if t == Lt {
          return Over(Invalid);
        } else {
          ptr := ptr + 1;
        }
    }
    RunEnd(enc, Value(open), s);
    p := Over(Partial);
  }

  /** After a closing quote: the end of the tag, or white space and the next attribute. */
  method ScanAfterValue(enc: Encoding, s: Octets, start: nat) returns (p: Phase)
    requires start <= |s|
    ensures Reaches(p, enc, AfterValue, s, start, AttName(false))
  {
    hide Run, ByteType, NmStrtCases;
    var ptr := start;
    if ptr == |s| {
      RunEnd(enc, AfterValue, s);
      return Over(Partial);
    }
    AtAfterValue(enc, s, ptr);
    var t := ByteType(enc, s[ptr]);
    ptr := ptr + 1;
    if t == Gt {
      return Over(Token(StartTagWithAtts, ptr));
    } else if t == Sol {
      var r := ScanSol(enc, EmptyElementWithAtts, s, ptr);
      return Over(r);
    } else if !IsBlank(t) {
      return Over(Invalid);
    }
    while ptr != |s|
      invariant start < ptr <= |s| && Run(enc, BetweenAtts, s, ptr) == Run(enc, AfterValue, s, start)
      decreases |s| - ptr
    {
      AtBetweenAtts(enc, s, ptr);
      match NmStrtCases(enc, s, ptr)
      case Return(e) => return Over(e);
      case Advance(n) => return Next(ptr + n);
      case Otherwise =>
        var u := ByteType(enc, s[ptr]);
        ptr := ptr + 1;
        if u == Gt {
          return Over(Token(StartTagWithAtts, ptr));
        } else if u == Sol {
          var r := ScanSol(enc, EmptyElementWithAtts, s, ptr);
          return Over(r);
        } else if !IsBlank(u) {
          return Over(Invalid);
        }
    }
    RunEnd(enc, BetweenAtts, s);
    p := Over(Partial);
  }

  /** From the equals sign to the next attribute or the end of the tag. */
  method ScanAttValue(enc: Encoding, s: Octets, start: nat) returns (p: Phase)
    requires start <= |s|
    ensures Reaches(p, enc, AttEquals, s, start, AttName(false))
  {
    hide Run;
    var open;
    p, open := ScanToQuote(enc, s, start);
    if p.Next? {
      p := ScanValue(enc, open, s, p.ptr);
      if p.Next? {
        p := ScanAfterValue(enc, s, p.ptr);
      }
    }
  }

  /** White space after an attribute name, up to the equals sign. */
  method ScanToEquals(enc: Encoding, s: Octets, start: nat) returns (p: Phase)
    requires start <= |s|
    ensures Reaches(p, enc, AttSpace, s, start, AttEquals)
  {
    hide Run, ByteType;
    var ptr := start;
    while ptr != |s|
      invariant start <= ptr <= |s| && Run(enc, AttSpace, s, ptr) == Run(enc, AttSpace, s, start)
      decreases |s| - ptr
    {
      AtAttSpace(enc, s, ptr);
      var t := ByteType(enc, s[ptr]);
      ptr := ptr + 1;
      if t == Equals {
        return Next(ptr);
      } else if !IsBlank(t) {
        return Over(Invalid);
      }
    }
    RunEnd(enc, AttSpace, s);
    p := Over(Partial);
  }

  /** scanAtts: ptr points after the first character of an attribute name. */
  method ScanAtts(enc: Encoding, s: Octets, start: nat) returns (r: Scan)
    requires start <= |s|
    ensures r == Run(enc, AttName(false), s, start)
  {
    hide Run, ByteType, NameCases, NmStrtCases;
    var ptr, hadColon := start, false;
    while ptr != |s|
      invariant ptr <= |s| && Run(enc, AttName(hadColon), s, ptr) == Run(enc, AttName(false), s, start)
      decreases |s| - ptr
    {
      AtAttName(enc, hadColon, s, ptr);
      match NameCases(enc, s, ptr)
      case Return(e) => return e;
      case Advance(n) => ptr := ptr + n;
      case Otherwise =>
        var t := ByteType(enc, s[ptr]);
        ptr := ptr + 1;
        if t == Colon {
          if hadColon {
            return Invalid;
          }
          if ptr == |s| {
            RunEnd(enc, AttColon, s);
            return Partial;
          }
          AtAttColon(enc, s, ptr);
          match NmStrtCases(enc, s, ptr)
          case Return(e) => return e;
          case Otherwise => return Invalid;
          case Advance(n) =>
            ptr, hadColon := ptr + n, true;
        } else if IsBlank(t) || t == Equals {
          var p := Next(ptr);
          if t != Equals {
            p := ScanToEquals(enc, s, ptr);
          }
          if p.Next? {
            p := ScanAttValue(enc, s, p.ptr);
          }
          if p.Over? {
            return p.r;
          }
          ptr, hadColon := p.ptr, false;
        } else {
          return Invalid;
        }
    }
    RunEnd(enc, AttName(hadColon), s);
    r := Partial;
  }

  /** White space after the name in a start tag. */
  method ScanStartSpace(enc: Encoding, s: Octets, start: nat) returns (r: Scan)
    requires start <= |s|
    ensures r == Run(enc, StartSpace, s, start)
  {
    hide Run, ByteType, NmStrtCases;
    var ptr := start;
    while ptr != |s|
      invariant ptr <= |s| && Run(enc, StartSpace, s, ptr) == Run(enc, StartSpace, s, start)
      decreases |s| - ptr
    {
      AtStartSpace(enc, s, ptr);
      match NmStrtCases(enc, s, ptr)
      case Return(e) => return e;
      case Advance(n) =>
        r := ScanAtts(enc, s, ptr + n);
        return;
      case Otherwise =>
        var t := ByteType(enc, s[ptr]);
        ptr := ptr + 1;
        if t == Gt {
          return Token(StartTagNoAtts, ptr);
        } else if t == Sol {
          r := ScanSol(enc, EmptyElementNoAtts, s, ptr);
          return;
        } else if !IsBlank(t) {
          return Invalid;
        }
    }
    RunEnd(enc, StartSpace, s);
    r := Partial;
  }

  /** The name of a start tag, after its first character. */
  method ScanStartName(enc: Encoding, s: Octets, start: nat) returns (r: Scan)
    requires start <= |s|
    ensures r == Run(enc, StartName(false), s, start)
  {
    hide Run, ByteType, NameCases, NmStrtCases;
    var ptr, hadColon := start, false;
    while ptr != |s|
      invariant ptr <= |s| && Run(enc, StartName(hadColon), s, ptr) == Run(enc, StartName(false), s, start)
      decreases |s| - ptr
    {
      AtStartName(enc, hadColon, s, ptr);
      match NameCases(enc, s, ptr)
      case Return(e) => return e;
      case Advance(n) => ptr := ptr + n;
      case Otherwise =>
        var t := ByteType(enc, s[ptr]);
        ptr := ptr + 1;
        if t == Colon {
          if hadColon {
            return Invalid;
          }
          if ptr == |s| {
            RunEnd(enc, StartColon, s);
            return Partial;
          }
          AtStartColon(enc, s, ptr);
          match NmStrtCases(enc, s, ptr)
          case Return(e) => return e;
          case Otherwise => return Invalid;
          case Advance(n) =>
            ptr, hadColon := ptr + n, true;
        } else if IsBlank(t) {
          r := ScanStartSpace(enc, s, ptr);
          return;
        } else if t == Gt {
          return Token(StartTagNoAtts, ptr);
        } else if t == Sol {
          r := ScanSol(enc, EmptyElementNoAtts, s, ptr);
          return;
        } else {
          return Invalid;
        }
    }
    RunEnd(enc, StartName(hadColon), s);
    r := Partial;
  }

  /** scanLt: ptr points after "<". */
  method ScanLt(enc: Encoding, s: Octets, start: nat) returns (r: Scan)
    requires start <= |s|
    ensures r == Run(enc, AfterLt, s, start)
  {
    hide Run, ByteType, NmStrtCases;
    var ptr := start;
    if ptr == |s| {
      RunEnd(enc, AfterLt, s);
      return Partial;
    }
    AtAfterLt(enc, s, ptr);
    match NmStrtCases(enc, s, ptr)
    case Return(e) => return e;
    case Advance(n) => r := ScanStartName(enc, s, ptr + n);
    case Otherwise =>
      var t := ByteType(enc, s[ptr]);
      ptr := ptr + 1;
      if t == Excl {
        if ptr == |s| {
          RunEnd(enc, AfterExcl, s);
          return Partial;
        }
        AtAfterExcl(enc, s, ptr);
        var u := ByteType(enc, s[ptr]);
        if u == Minus {
          r := ScanComment(enc, s, ptr + 1);
        } else if u == Lsqb {
          r := ScanCdataSection(enc, s, ptr + 1);
        } else {
          r := Invalid;
        }
      } else if t == Quest {
        r := ScanPi(enc, s, ptr);
      } else if t == Sol {
        r := ScanEndTag(enc, s, ptr);
      } else {
        r := Invalid;
      }
  }
}
