/** Parsing content buffer by buffer: `doContent`, `doCdataSection`, and the parse buffer. */
module ContentParser {
  import opened Bytes
  import opened ByteTypes
  import opened ContentAutomaton
  import opened ContentChunks
  import opened ContentTokenizer

  /** The events so far, the mode and the position where a processor stopped, or an error. */
  datatype Feed = Stopped(events: seq<Event>, mode: Mode, next: nat) | Failed

  /** What a processor did, in terms of the meaning of the buffer followed by the rest of the input. */
  ghost predicate Explains(r: Feed, enc: Encoding, mode: Mode, s: Octets, rest: Octets, start: nat)
    requires start <= |s|
  {
    var m := Meaning(enc, mode, s + rest, start);
    match r
    case Failed => m == Err
    case Stopped(es, mode', next) => next <= |s| && m == Prepend(es, Meaning(enc, mode', s + rest, next))
  }

  /** At the end of the input everything is consumed. */
  ghost predicate Finishes(r: Feed, s: Octets) {
    r.Stopped? ==> r.mode == Content && r.next == |s|
  }

  lemma PrependTwice(a: seq<Event>, b: seq<Event>, r: Outcome)
    ensures Prepend(a, Prepend(b, r)) == Prepend(a + b, r)
  {
  }

  lemma PrependNothing(r: Outcome)
    ensures Prepend([], r) == r
  {
  }

  /** The events of a token and the mode after it. */
  ghost function TokenEvents(s: Octets, i: nat, r: Lexeme): seq<Event>
    requires (r.LexData? || r.LexMarkup?) ==> i <= r.end <= |s|
  {
    match r
    case LexNewline(_) => [Char(LF)]
    case LexData(end) => AsChars(s[i..end])
    case LexMarkup(tok, end) => [Markup(tok, s[i..end])]
    case _ => []
  }

  lemma TokenMeans(enc: Encoding, mode: Mode, s: Octets, rest: Octets, i: nat, r: Lexeme)
    requires i <= |s| && Lexed(enc, mode, s, i, r)
    ensures r.LexNewline? || r.LexData? ==>
              i < r.end <= |s| && Meaning(enc, mode, s + rest, i)
                == Prepend(TokenEvents(s, i, r), Meaning(enc, mode, s + rest, r.end))
    ensures r == LexInvalid ==> Meaning(enc, mode, s + rest, i) == Err
  {
    hide Chars, Decided, AtomAt;
    match r
    case LexNewline(end) => MeaningOfAtom(enc, mode, s, rest, i);
    case LexData(end) => MeaningOfChars(enc, mode, s, rest, i, end);
    case LexInvalid =>
      var j :| i <= j < |s| && Chars(enc, mode, s, i, j) && Decided(enc, mode, s, j)
        && AtomAt(enc, mode, s, j) == Fault;
      MeaningOfChars(enc, mode, s, rest, i, j);
      MeaningOfAtom(enc, mode, s, rest, j);
    case _ =>
  }

  lemma MarkupMeans(enc: Encoding, mode: Mode, s: Octets, rest: Octets, i: nat, tok: Tok, end: nat)
    requires i <= |s| && Lexed(enc, mode, s, i, LexMarkup(tok, end))
    ensures i < end <= |s|
    ensures var a := MarkupOf(mode, tok, s[i..end], end);
            Meaning(enc, mode, s + rest, i) ==
            if a.Fault? then Err else Prepend(a.events, Meaning(enc, a.mode, s + rest, end))
  {
    hide Chars, Decided, AtomAt;
    MeaningOfAtom(enc, mode, s, rest, i);
  }

  /** One more piece of events in front of what is still to come. */
  ghost predicate SoFar(enc: Encoding, mode: Mode, all: Octets, start: nat, es: seq<Event>, mode': Mode, i: nat)
    requires start <= |all| && i <= |all|
  {
    Meaning(enc, mode, all, start) == Prepend(es, Meaning(enc, mode', all, i))
  }

  lemma SoFarNothing(enc: Encoding, mode: Mode, all: Octets, start: nat)
    requires start <= |all|
    ensures SoFar(enc, mode, all, start, [], mode, start)
  {
    hide Meaning;
    PrependNothing(Meaning(enc, mode, all, start));
  }

  lemma SoFarMore(enc: Encoding, mode: Mode, all: Octets, start: nat, es: seq<Event>, m: Mode, i: nat,
                  more: seq<Event>, m': Mode, j: nat)
    requires start <= |all| && i <= |all| && j <= |all| && SoFar(enc, mode, all, start, es, m, i)
    requires Meaning(enc, m, all, i) == Prepend(more, Meaning(enc, m', all, j))
    ensures SoFar(enc, mode, all, start, es + more, m', j)
  {
    hide Meaning;
    PrependTwice(es, more, Meaning(enc, m', all, j));
  }

  lemma SoFarErr(enc: Encoding, mode: Mode, all: Octets, start: nat, es: seq<Event>, m: Mode, i: nat)
    requires start <= |all| && i <= |all| && SoFar(enc, mode, all, start, es, m, i)
    requires Meaning(enc, m, all, i) == Err
    ensures Meaning(enc, mode, all, start) == Err
  {
  }

  /** doCdataSection: the mode of the result is Content when the section was closed. */
  method DoCdataSection(enc: Encoding, s: Octets, start: nat, haveMore: bool, ghost rest: Octets) returns (r: Feed)
    requires start <= |s| && (!haveMore ==> rest == [])
    ensures Explains(r, enc, Cdata, s, rest, start)
    ensures r.Stopped? ==> start <= r.next && (!haveMore ==> r.mode == Content && start < r.next)
  {
    hide Meaning, Lexed, MarkupOf, SoFar;
    var ptr := start;
    var es: seq<Event> := [];
    ghost var all := s + rest;
    SoFarNothing(enc, Cdata, all, start);
    while true
      invariant start <= ptr <= |s| && SoFar(enc, Cdata, all, start, es, Cdata, ptr)
      decreases |s| - ptr
    {
      var t := CdataSectionTok(enc, s, ptr);
      TokenMeans(enc, Cdata, s, rest, ptr, t);
      match t {
        case LexMarkup(tok, end) =>
          CloseMeans(enc, s, rest, ptr, tok, end);
          SoFarMore(enc, Cdata, all, start, es, Cdata, ptr, [Markup(tok, s[ptr..end])], Content, end);
          StoppedExplains(enc, Cdata, s, rest, start, es + [Markup(tok, s[ptr..end])], Content, end);
          return Stopped(es + [Markup(tok, s[ptr..end])], Content, end);
        case LexNewline(end) =>
          SoFarMore(enc, Cdata, all, start, es, Cdata, ptr, [Char(LF)], Cdata, end);
          es, ptr := es + [Char(LF)], end;
        case LexData(end) =>
          SoFarMore(enc, Cdata, all, start, es, Cdata, ptr, AsChars(s[ptr..end]), Cdata, end);
          var data := Data(s[ptr..end]);
          es, ptr := es + data, end;
        case LexInvalid =>
          SoFarErr(enc, Cdata, all, start, es, Cdata, ptr);
          return Failed;
        case _ =>
          if haveMore {
            StoppedExplains(enc, Cdata, s, rest, start, es, Cdata, ptr);
            return Stopped(es, Cdata, ptr);
          }
          assert all == s;
          UnclosedMeans(enc, s, ptr, t);
          SoFarErr(enc, Cdata, all, start, es, Cdata, ptr);
          return Failed;
      }
    }
  }

  /** The character data handler gets the bytes of a data token. */
  method Data(s: Octets) returns (es: seq<Event>)
    ensures es == AsChars(s)
  {
    es := [];
    for k := 0 to |s|
      invariant es == AsChars(s)[..k]
    {
      es := es + [Char(s[k])];
    }
  }

  lemma StoppedExplains(enc: Encoding, mode: Mode, s: Octets, rest: Octets, start: nat,
                        es: seq<Event>, m: Mode, next: nat)
    requires start <= |s| && next <= |s| && SoFar(enc, mode, s + rest, start, es, m, next)
    ensures Explains(Stopped(es, m, next), enc, mode, s, rest, start)
  {
  }

  lemma CloseMeans(enc: Encoding, s: Octets, rest: Octets, i: nat, tok: Tok, end: nat)
    requires i <= |s| && Lexed(enc, Cdata, s, i, LexMarkup(tok, end))
    ensures i < end <= |s|
    ensures Meaning(enc, Cdata, s + rest, i)
         == Prepend([Markup(tok, s[i..end])], Meaning(enc, Content, s + rest, end))
  {
    hide Meaning, Lexed;
    MarkupMeans(enc, Cdata, s, rest, i, tok, end);
  }

  lemma UnclosedMeans(enc: Encoding, s: Octets, i: nat, r: Lexeme)
    requires i <= |s| && Lexed(enc, Cdata, s, i, r)
    requires !r.LexNewline? && !r.LexData? && !r.LexMarkup? && !r.LexInvalid?
    ensures Meaning(enc, Cdata, s, i) == Err
  {
    hide AtomAt, Chars, Decided;
  }

  /** The results after which more input is awaited, when there is more. */
  predicate MayGoOn(t: Lexeme) {
    t.LexTrailingCr? || t.LexTrailingRsqb? || t.LexNone? || t.LexPartial? || t.LexPartialChar?
  }

  /** What the end of the input makes of a token that could have gone on. */
  lemma FinalMeans(enc: Encoding, s: Octets, i: nat, r: Lexeme)
    requires i <= |s| && Lexed(enc, Content, s, i, r)
    ensures r == LexNone ==> Meaning(enc, Content, s, i) == Ok([]) && i == |s|
    ensures r == LexTrailingCr ==> Meaning(enc, Content, s, i) == Ok([Char(LF)])
    ensures r == LexTrailingRsqb ==> Meaning(enc, Content, s, i) == Ok(AsChars(s[i..]))
    ensures r.LexPartial? || r.LexPartialChar? ==> Meaning(enc, Content, s, i) == Err
  {
    hide AtomAt, Chars, Decided;
    MeaningOfEnd(enc, Content, s);
  }

  /** The last events of an input complete what was reported before. */
  lemma LastExplains(enc: Encoding, mode: Mode, s: Octets, rest: Octets, start: nat,
                     es: seq<Event>, i: nat, last: seq<Event>)
    requires start <= |s| && i <= |s| && rest == []
    requires SoFar(enc, mode, s + rest, start, es, Content, i) && Meaning(enc, Content, s + rest, i) == Ok(last)
    ensures Explains(Stopped(es + last, Content, |s|), enc, mode, s, rest, start)
  {
    assert s + rest == s;
    MeaningOfEnd(enc, Content, s);
    hide Meaning;
    var none: seq<Event> := [];
    assert es + last + none == es + last;
  }

  /** doContent */
  method DoContent(enc: Encoding, s: Octets, start: nat, haveMore: bool, ghost rest: Octets) returns (r: Feed)
    requires start <= |s| && (!haveMore ==> rest == [])
    ensures Explains(r, enc, Content, s, rest, start)
    ensures !haveMore ==> Finishes(r, s)
  {
    hide Meaning, Lexed, MarkupOf, SoFar;
    var ptr := start;
    var es: seq<Event> := [];
    ghost var all := s + rest;
    SoFarNothing(enc, Content, all, start);
    while true
      invariant start <= ptr <= |s| && SoFar(enc, Content, all, start, es, Content, ptr)
      decreases |s| - ptr
    {
      var t := ContentTok(enc, s, ptr);
      TokenMeans(enc, Content, s, rest, ptr, t);
      if haveMore && MayGoOn(t) {
        StoppedExplains(enc, Content, s, rest, start, es, Content, ptr);
        return Stopped(es, Content, ptr);
      }
      if !haveMore {
        assert all == s;
        FinalMeans(enc, s, ptr, t);
      }
      match t {
        case LexNewline(end) =>
          SoFarMore(enc, Content, all, start, es, Content, ptr, [Char(LF)], Content, end);
          es, ptr := es + [Char(LF)], end;
        case LexData(end) =>
          SoFarMore(enc, Content, all, start, es, Content, ptr, AsChars(s[ptr..end]), Content, end);
          var data := Data(s[ptr..end]);
          es, ptr := es + data, end;
        case LexMarkup(tok, end) =>
          OpenMeans(enc, s, rest, ptr, tok, end);
          if tok == XmlDecl {
            SoFarErr(enc, Content, all, start, es, Content, ptr);
            return Failed;
          }
          ghost var mode := if tok == CdataSectOpen then Cdata else Content;
          SoFarMore(enc, Content, all, start, es, Content, ptr, [Markup(tok, s[ptr..end])], mode, end);
          es, ptr := es + [Markup(tok, s[ptr..end])], end;
          if tok == CdataSectOpen {
            var f := DoCdataSection(enc, s, ptr, haveMore, rest);
            if f.Failed? {
              SoFarErr(enc, Content, all, start, es, Cdata, ptr);
              return Failed;
            }
            SoFarMore(enc, Content, all, start, es, Cdata, ptr, f.events, f.mode, f.next);
            es, ptr := es + f.events, f.next;
            if f.mode == Cdata {
              StoppedExplains(enc, Content, s, rest, start, es, Cdata, ptr);
              return Stopped(es, Cdata, ptr);
            }
          }
        case LexInvalid =>
          SoFarErr(enc, Content, all, start, es, Content, ptr);
          return Failed;
        case LexPartial | LexPartialChar =>
          SoFarErr(enc, Content, all, start, es, Content, ptr);
          return Failed;
        case LexNone =>
          LastExplains(enc, Content, s, rest, start, es, ptr, []);
          return Stopped(es + [], Content, |s|);
        case LexTrailingCr =>
          LastExplains(enc, Content, s, rest, start, es, ptr, [Char(LF)]);
          return Stopped(es + [Char(LF)], Content, |s|);
        case LexTrailingRsqb =>
          LastExplains(enc, Content, s, rest, start, es, ptr, AsChars(s[ptr..]));
          var data := Data(s[ptr..]);
          return Stopped(es + data, Content, |s|);
      }
    }
  }

  lemma OpenMeans(enc: Encoding, s: Octets, rest: Octets, i: nat, tok: Tok, end: nat)
    requires i <= |s| && Lexed(enc, Content, s, i, LexMarkup(tok, end))
    ensures i < end <= |s|
    ensures Meaning(enc, Content, s + rest, i) ==
            if tok == XmlDecl then Err
            else Prepend([Markup(tok, s[i..end])],
                         Meaning(enc, if tok == CdataSectOpen then Cdata else Content, s + rest, end))
  {
    hide Meaning, Lexed;
    MarkupMeans(enc, Content, s, rest, i, tok, end);
  }

  /** cdataSectionProcessor: finish the section that the last buffer left open, then go on with content. */
  method ResumeCdata(enc: Encoding, s: Octets, haveMore: bool, ghost rest: Octets) returns (r: Feed)
    requires !haveMore ==> rest == []
    ensures Explains(r, enc, Cdata, s, rest, 0)
    ensures !haveMore ==> Finishes(r, s)
  {
    hide Meaning;
    r := DoCdataSection(enc, s, 0, haveMore, rest);
    if r.Stopped? && r.mode == Content {
      var f := DoContent(enc, s, r.next, haveMore, rest);
      if f.Failed? {
        return Failed;
      }
      PrependTwice(r.events, f.events, Meaning(enc, f.mode, s + rest, f.next));
      return Stopped(r.events + f.events, f.mode, f.next);
    }
  }

  const CONTEXT_BYTES: nat := 1024
  const INIT_BUFFER_SIZE: nat := 1024

  /** The parse buffer: bytes from ptr to end are still to be parsed, those before ptr are context. */
  class ParseBuffer {
    var data: array<byte>
    var ptr: nat
    var end: nat

    ghost predicate Valid()
      reads this
    {
      ptr <= end <= data.Length
    }

    ghost function Pending(): Octets
      requires Valid()
      reads this, data
    {
      data[ptr..end]
    }

    /** The context that is kept in front of the pending bytes. */
    ghost function Context(): Octets
      requires Valid()
      reads this, data
    {
      data[if ptr > CONTEXT_BYTES then ptr - CONTEXT_BYTES else 0..ptr]
    }

    constructor ()
      ensures Valid() && Pending() == [] && Context() == [] && fresh(data)
    {
      data := new byte[0];
      ptr, end := 0, 0;
    }

    /** Move the bytes from offset on to the front of the same buffer. */
    method Slide(offset: nat)
      requires Valid() && offset <= ptr
      modifies this`ptr, this`end, data
      ensures Valid() && ptr == old(ptr) - offset && end == old(end) - offset
      ensures data[..end] == old(data[offset..end])
    {
      forall k | 0 <= k < end - offset {
        data[k] := data[offset + k];
      }
      end, ptr := end - offset, ptr - offset;
    }

    /** Move the bytes from offset on to the front of a new buffer. */
    method Move(offset: nat, size: nat)
      requires Valid() && offset <= ptr && end - offset <= size
      modifies this
      ensures Valid() && ptr == old(ptr) - offset && end == old(end) - offset
      ensures fresh(data) && data.Length == size && data[..end] == old(data[offset..end])
    {
      var newBuf := new byte[size];
      forall k | 0 <= k < end - offset {
        newBuf[k] := data[offset + k];
      }
      assert newBuf[..end - offset] == data[offset..end];
      end, ptr := end - offset, ptr - offset;
      data := newBuf;
    }

    /** XML_GetBuffer: room for len more bytes, with what is pending and its context untouched. */
    method GetBuffer(len: nat)
      requires Valid()
      modifies this, data
      ensures Valid() && (data == old(data) || fresh(data))
      ensures Pending() == old(Pending()) && Context() == old(Context())
      ensures data.Length - end >= len
    {
      if len > data.Length - end {
        var keep := if ptr > CONTEXT_BYTES then CONTEXT_BYTES else ptr;
        var needed := len + (end - ptr) + keep;
        ghost var kept := data[ptr - keep..end];
        assert kept[keep..] == Pending() && kept[..keep] == Context();
        if needed <= data.Length {
          if keep < ptr {
            Slide(ptr - keep);
          }
        } else {
          var size := NewSize(data.Length - ptr, needed);
          Move(ptr - keep, size);
        }
        assert kept[keep..] == Pending() && kept[..keep] == Context();
      }
    }

    /** `do { bufferSize *= 2; } while (bufferSize < neededSize);` */
    method NewSize(size: nat, needed: nat) returns (r: nat)
      ensures r >= needed
    {
      r := if size == 0 then INIT_BUFFER_SIZE else size;
      r := r * 2;
      while r < needed
        invariant r > 0
        decreases needed - r
      {
        r := r * 2;
      }
    }

    /** The application puts a chunk into the buffer it was given. */
    method Append(chunk: Octets)
      requires Valid() && data.Length - end >= |chunk|
      modifies this`end, data
      ensures Valid() && Pending() == old(Pending()) + chunk && Context() == old(Context())
    {
      forall k | 0 <= k < |chunk| {
        data[end + k] := chunk[k];
      }
      end := end + |chunk|;
    }
  }

  /** A parser of content: the buffer, the processor in charge and the events reported so far. */
  class ContentParser {
    const enc: Encoding
    const buffer: ParseBuffer
    var mode: Mode
    var events: seq<Event>

    ghost predicate Valid()
      reads this, buffer
    {
      buffer.Valid()
    }

    /** The meaning of all input, when this rest is still to come. */
    ghost function Total(rest: Octets): Outcome
      requires Valid()
      reads this, buffer, buffer.data
    {
      Prepend(events, Meaning(enc, mode, buffer.Pending() + rest, 0))
    }

    constructor (enc: Encoding)
      ensures Valid() && this.enc == enc && fresh(buffer) && fresh(buffer.data)
      ensures events == [] && mode == Content && buffer.Pending() == []
    {
      this.enc := enc;
      buffer := new ParseBuffer();
      mode, events := Content, [];
    }

    /** The processor in charge. */
    method Process(s: Octets, isFinal: bool, ghost rest: Octets) returns (f: Feed)
      requires isFinal ==> rest == []
      ensures Explains(f, enc, mode, s, rest, 0) && (isFinal ==> Finishes(f, s))
    {
      if mode == Content {
        f := DoContent(enc, s, 0, !isFinal, rest);
      } else {
        f := ResumeCdata(enc, s, !isFinal, rest);
      }
    }

    /** XML_GetBuffer and XML_ParseBuffer: what is left unconsumed waits for the next chunk. */
    method Parse(chunk: Octets, isFinal: bool, ghost rest: Octets) returns (ok: bool)
      requires Valid() && (isFinal ==> rest == [])
      modifies this, buffer, buffer.data
      ensures Valid() && (buffer.data == old(buffer.data) || fresh(buffer.data))
      ensures !ok ==> old(Total(chunk + rest)) == Err
      ensures ok ==> old(Total(chunk + rest)) == Total(rest)
      ensures ok && isFinal ==> old(Total(chunk + rest)) == Ok(events)
    {
      hide Meaning, Explains, Prepend;
      ghost var pending := buffer.Pending();
      buffer.GetBuffer(|chunk|);
      buffer.Append(chunk);
      var s := buffer.data[buffer.ptr..buffer.end];
      assert s + rest == pending + (chunk + rest);
      var f := Process(s, isFinal, rest);
      ParsedTotal(enc, events, mode, s, rest, f);
      if f.Failed? {
        return false;
      }
      events, mode := events + f.events, f.mode;
      buffer.ptr := buffer.ptr + f.next;
      assert buffer.Pending() == s[f.next..];
      if isFinal {
        FinalTotal(enc, s[f.next..] + rest, events);
      }
      ok := true;
    }
  }

  /** What one buffer contributes to the meaning of the whole input. */
  lemma ParsedTotal(enc: Encoding, es: seq<Event>, mode: Mode, s: Octets, rest: Octets, f: Feed)
    requires Explains(f, enc, mode, s, rest, 0)
    ensures f.Failed? ==> Prepend(es, Meaning(enc, mode, s + rest, 0)) == Err
    ensures f.Stopped? ==> f.next <= |s|
    ensures f.Stopped? ==> Prepend(es, Meaning(enc, mode, s + rest, 0))
                           == Prepend(es + f.events, Meaning(enc, f.mode, s[f.next..] + rest, 0))
  {
    hide Meaning;
    if f.Stopped? {
      PrependTwice(es, f.events, Meaning(enc, f.mode, s + rest, f.next));
      MeaningOfTail(enc, f.mode, s, rest, f.next);
    }
  }

  lemma MeaningOfTail(enc: Encoding, mode: Mode, s: Octets, rest: Octets, i: nat)
    requires i <= |s|
    ensures Meaning(enc, mode, s + rest, i) == Meaning(enc, mode, s[i..] + rest, 0)
  {
    assert s + rest == s[..i] + (s[i..] + rest);
    MeaningShift(enc, mode, s[..i], s[i..] + rest, 0);
  }

  lemma FinalTotal(enc: Encoding, s: Octets, es: seq<Event>)
    requires s == []
    ensures Prepend(es, Meaning(enc, Content, s, 0)) == Ok(es)
  {
    MeaningOfEnd(enc, Content, s);
    var none: seq<Event> := [];
    assert es + none == es;
  }

  ghost function Flatten(chunks: seq<Octets>): Octets {
    if chunks == [] then [] else chunks[0] + Flatten(chunks[1..])
  }

  /** However the input is cut into buffers, the events are those of the whole input. */
  method ParseChunks(enc: Encoding, chunks: seq<Octets>) returns (r: Outcome)
    requires chunks != []
    ensures r == Meaning(enc, Content, Flatten(chunks), 0)
  {
    hide Meaning;
    var p := new ContentParser(enc);
    assert chunks[0..] == chunks;
    assert p.buffer.Pending() + Flatten(chunks) == Flatten(chunks);
    PrependNothing(Meaning(enc, Content, Flatten(chunks), 0));
    for k := 0 to |chunks|
      invariant p.Valid() && p.enc == enc && fresh(p) && fresh(p.buffer) && fresh(p.buffer.data)
      invariant p.Total(Flatten(chunks[k..])) == Meaning(enc, Content, Flatten(chunks), 0)
      invariant k == |chunks| ==> Meaning(enc, Content, Flatten(chunks), 0) == Ok(p.events)
    {
      assert chunks[k..][1..] == chunks[k + 1..];
      ghost var rest := Flatten(chunks[k + 1..]);
      assert Flatten(chunks[k..]) == chunks[k] + rest;
      var ok := p.Parse(chunks[k], k + 1 == |chunks|, rest);
      if !ok {
        return Err;
      }
    }
    r := Ok(p.events);
  }

  /** Two ways of cutting the same input give the same events, or both are refused. */
  method CompareChunkings(enc: Encoding, a: seq<Octets>, b: seq<Octets>) returns (r: Outcome, q: Outcome)
    requires a != [] && b != [] && Flatten(a) == Flatten(b)
    ensures r == q
  {
    r := ParseChunks(enc, a);
    q := ParseChunks(enc, b);
  }
}
