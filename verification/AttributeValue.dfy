/** Attribute values: `attributeValueTok`, `appendAttributeValue` and `storeAttributeValue`. */
module AttributeValue {
  import opened Bytes
  import opened ByteTypes
  import opened CharacterRefs
  import opened Common
  import opened ContentAutomaton
  import ContentCases
  import opened ContentScanner
  import opened AttributeText

  /** The text holds whole characters: that of a declared entity, which is UTF-8, does. */
  ghost predicate Uncut(s: Octets) {
    forall i :: 0 <= i < |s| ==> UncutAt(s, i)
  }

  /** From here on no character of the text is cut; nothing is asked of the names in references. */
  ghost predicate WholeFrom(enc: Encoding, s: Octets, i: nat)
    requires i <= |s|
    decreases |s| - i
  {
    i == |s| ||
    (var p := PieceAt(enc, s, i);
     (p.Text? ==> UncutAt(s, i)) && (!p.Wrong? ==> WholeFrom(enc, s, p.end)))
  }

  lemma WholeNext(enc: Encoding, s: Octets, i: nat)
    requires i < |s| && WholeFrom(enc, s, i)
    ensures var p := PieceAt(enc, s, i); !p.Wrong? ==> WholeFrom(enc, s, p.end)
  {
  }

  lemma {:induction false} UncutIsWhole(enc: Encoding, s: Octets, i: nat)
    requires i <= |s| && Uncut(s)
    ensures WholeFrom(enc, s, i)
    decreases |s| - i
  {
    hide PieceAt, UncutAt;
    if i < |s| && !PieceAt(enc, s, i).Wrong? {
      UncutIsWhole(enc, s, PieceAt(enc, s, i).end);
    }
  }

  ghost predicate UncutAt(s: Octets, i: nat)
    requires i < |s|
  {
    var n := LeadSize(s[i]);
    i + n <= |s| && forall k :: i < k < i + n ==> 0x80 <= s[k] < 0xC0
  }

  function LeadSize(b: byte): (n: nat)
    ensures 1 <= n <= 4
  {
    if b < 0xC0 then 1 else if b < 0xE0 then 2 else if b < 0xF0 then 3 else if b < 0xF5 then 4 else 1
  }

  lemma SizeOfLead(enc: Encoding, b: byte)
    ensures CharSize(ByteType(enc, b)) == LeadSize(b)
    ensures b == SPACE ==> ByteType(enc, b) == Space
  {
  }

  /** The tokens of attributeValueTok. */
  datatype ValueTok =
    | DataChars(next: nat) | WhiteSpace(next: nat) | Reference(r: Scan) | BadLt

  /** Text from i to j, in pieces. */
  ghost predicate TextRun(enc: Encoding, s: Octets, i: nat, j: nat)
    requires i <= j <= |s|
    decreases j - i
  {
    i == j || (PieceAt(enc, s, i).Text? && PieceAt(enc, s, i).end <= j && TextRun(enc, s, PieceAt(enc, s, i).end, j))
  }

  lemma {:induction false} TextRunMore(enc: Encoding, s: Octets, i: nat, j: nat)
    requires i <= j < |s| && TextRun(enc, s, i, j) && PieceAt(enc, s, j).Text?
    ensures TextRun(enc, s, i, PieceAt(enc, s, j).end)
    decreases j - i
  {
    hide PieceAt;
    if i < j {
      TextRunMore(enc, s, PieceAt(enc, s, i).end, j);
    }
  }

  lemma BeforeTwice(a: Octets, b: Octets, r: Result)
    ensures Before(a, Before(b, r)) == Before(a + b, r) && Before([], r) == r
  {
    if r.Ok? {
      assert a + (b + r.out) == a + b + r.out;
    }
  }

  lemma TextFirst(decls: Decls, check: bool, open: set<Octets>, enc: Encoding, s: Octets, i: nat)
    requires i < |s| && PieceAt(enc, s, i).Text?
    ensures var end := PieceAt(enc, s, i).end;
            Expand(decls, check, open, enc, s, i) == Before(s[i..end], Expand(decls, check, open, enc, s, end))
  {
    hide PieceAt, Before;
  }

  lemma {:induction false} ExpandText(decls: Decls, check: bool, open: set<Octets>, enc: Encoding, s: Octets,
                                      i: nat, j: nat)
    requires i <= j <= |s| && TextRun(enc, s, i, j)
    ensures Expand(decls, check, open, enc, s, i) == Before(s[i..j], Expand(decls, check, open, enc, s, j))
    decreases j - i
  {
    hide PieceAt, Expand, Before;
    var rest := Expand(decls, check, open, enc, s, j);
    BeforeTwice([], [], rest);
    if i == j {
      assert s[i..j] == [];
    } else {
      var end := PieceAt(enc, s, i).end;
      TextFirst(decls, check, open, enc, s, i);
      ExpandText(decls, check, open, enc, s, end, j);
      assert s[i..j] == s[i..end] + s[end..j];
      BeforeTwice(s[i..end], s[end..j], rest);
    }
  }

  /** Text holds no space. */
  lemma TextAt(enc: Encoding, s: Octets, i: nat)
    requires i < |s| && UncutAt(s, i) && ByteType(enc, s[i]) !in {Amp, Lt, Cr, Lf, Space}
    ensures PieceAt(enc, s, i) == Text(i + CharSize(ByteType(enc, s[i])))
    ensures i + CharSize(ByteType(enc, s[i])) <= |s|
    ensures SPACE !in s[i..i + CharSize(ByteType(enc, s[i]))]
  {
    hide ByteType, LeadSize;
    SizeOfLead(enc, s[i]);
  }

  lemma WholeText(enc: Encoding, s: Octets, i: nat)
    requires i < |s| && WholeFrom(enc, s, i) && ByteType(enc, s[i]) !in {Amp, Lt, Cr, Lf, Space}
    ensures UncutAt(s, i) && WholeFrom(enc, s, PieceAt(enc, s, i).end)
  {
    hide ByteType, UncutAt;
  }

  lemma NoText(enc: Encoding, s: Octets, i: nat)
    requires i <= |s|
    ensures TextRun(enc, s, i, i)
  {
  }

  lemma TextGrows(enc: Encoding, s: Octets, start: nat, ptr: nat)
    requires start <= ptr < |s| && WholeFrom(enc, s, ptr) && ByteType(enc, s[ptr]) !in {Amp, Lt, Cr, Lf, Space}
    requires TextRun(enc, s, start, ptr) && SPACE !in s[start..ptr]
    ensures var end := ptr + CharSize(ByteType(enc, s[ptr]));
            end <= |s| && TextRun(enc, s, start, end) && SPACE !in s[start..end] && WholeFrom(enc, s, end)
  {
    hide ByteType, CharSize, PieceAt, UncutAt, TextRun, WholeFrom;
    WholeText(enc, s, ptr);
    TextAt(enc, s, ptr);
    TextRunMore(enc, s, start, ptr);
    var end := ptr + CharSize(ByteType(enc, s[ptr]));
    assert s[start..end] == s[start..ptr] + s[ptr..end];
  }

  /** What the token at the start of the text says about the pieces there. */
  ghost predicate TokenFits(t: ValueTok, enc: Encoding, s: Octets, ptr: nat)
    requires ptr < |s|
  {
    match t
    case DataChars(next) => ptr < next <= |s| && TextRun(enc, s, ptr, next) && SPACE !in s[ptr..next]
    case WhiteSpace(next) => PieceAt(enc, s, ptr) == White(next)
    case Reference(r) =>
      && (r.Token? ==> ptr + 1 < r.end <= |s| && (r.tok == EntityRef || (r.tok == CharRef && ptr + 4 <= r.end)))
      && PieceAt(enc, s, ptr) == RefPiece(r, s, ptr)
    case BadLt => exists i :: ptr <= i < |s| && TextRun(enc, s, ptr, i) && PieceAt(enc, s, i) == Wrong(InvalidToken)
  }

  lemma WhiteAt(enc: Encoding, s: Octets, i: nat)
    requires i < |s|
    ensures var t := ByteType(enc, s[i]);
            && ((t == Lf || t == Space) ==> PieceAt(enc, s, i) == White(i + 1))
            && (t == Cr ==> PieceAt(enc, s, i) ==
                            White(if i + 1 < |s| && ByteType(enc, s[i + 1]) == Lf then i + 2 else i + 1))
            && (t == Lt ==> PieceAt(enc, s, i) == Wrong(InvalidToken))
            && (t == Amp ==> PieceAt(enc, s, i) == RefPiece(Run(enc, RefOpen(InContent), s, i + 1), s, i))
  {
    hide ByteType, Run;
  }

  /** attributeValueTok; TRAILING_CR and the white space tokens are treated alike by the caller. */
  method AttributeValueTok(enc: Encoding, s: Octets, start: nat) returns (t: ValueTok)
    requires start < |s| && WholeFrom(enc, s, start)
    ensures TokenFits(t, enc, s, start) && (t.DataChars? ==> WholeFrom(enc, s, t.next))
  {
    hide ByteType, CharSize, PieceAt, Run, RefPiece, WholeFrom, TextRun;
    var ptr := start;
    NoText(enc, s, start);
    while ptr != |s|
      invariant start <= ptr <= |s| && TextRun(enc, s, start, ptr) && SPACE !in s[start..ptr]
      invariant WholeFrom(enc, s, ptr)
      decreases |s| - ptr
    {
      var b := ByteType(enc, s[ptr]);
      WhiteAt(enc, s, ptr);
      match b
      case Amp =>
        if ptr == start {
          var r := ScanRef(enc, s, ptr + 1, InContent);
          RefDoneInContent(enc, s, r);
          return Reference(r);
        }
        return DataChars(ptr);
      case Lt =>
        return BadLt;
      case Lf =>
        return if ptr == start then WhiteSpace(ptr + 1) else DataChars(ptr);
      case Space =>
        return if ptr == start then WhiteSpace(ptr + 1) else DataChars(ptr);
      case Cr =>
        if ptr == start {
          ptr := ptr + 1;
          if ptr == |s| {
            return WhiteSpace(ptr);
          }
          if ByteType(enc, s[ptr]) == Lf {
            ptr := ptr + 1;
          }
          return WhiteSpace(ptr);
        }
        return DataChars(ptr);
      case _ =>
        TextGrows(enc, s, start, ptr);
        ptr := ptr + CharSize(b);
    }
    t := DataChars(ptr);
  }

  lemma RefDoneInContent(enc: Encoding, s: Octets, r: Scan)
    requires r.Token? ==> r.end <= |s|
    ensures r.Token? ==> ContentCases.RefDone(enc, InContent, r.tok, s, r.end) == r
  {
  }

  // ----- building the value

  /** How a value grows: as it is, or with runs of spaces squeezed. */
  ghost function Add(isCdata: bool, acc: Octets, s: Octets): Octets {
    if isCdata then acc + s else SqueezeAll(acc, s)
  }

  lemma AddAppend(isCdata: bool, acc: Octets, a: Octets, b: Octets)
    ensures Add(isCdata, acc, a + b) == Add(isCdata, Add(isCdata, acc, a), b)
  {
    hide SqueezeAll;
    SqueezeAppend(acc, a, b);
    assert acc + (a + b) == acc + a + b;
  }

  lemma AddNothing(isCdata: bool, acc: Octets)
    ensures Add(isCdata, acc, []) == acc
  {
  }

  lemma AddText(isCdata: bool, acc: Octets, s: Octets)
    requires SPACE !in s
    ensures Add(isCdata, acc, s) == acc + s
  {
    hide SqueezeAll;
    SqueezeText(acc, s);
  }

  lemma AddByte(isCdata: bool, acc: Octets, c: byte)
    ensures Add(isCdata, acc, [c]) == if isCdata then acc + [c] else Squeeze(acc, c)
  {
    assert [c][..0] == [];
    assert SqueezeAll(acc, []) == acc;
  }

  lemma EncodedIsNotSpace(n: nat)
    requires n < LIMIT && n != SPACE
    ensures SPACE !in Utf8Encode(n)
  {
  }

  ghost predicate Appended(r: Result, isCdata: bool, before: Octets, after: Octets, error: Option<Error>) {
    match r
    case Ok(out) => error.None? && after == Add(isCdata, before, out)
    case Err(e) => error == Some(e)
  }

  /** One more part of the text has been handled. */
  lemma AppendedMore(whole: Result, rest: Result, done: Octets, part: Octets, later: Result, isCdata: bool,
                     before: Octets, pool: Octets)
    requires whole == Before(done, rest) && pool == Add(isCdata, before, done)
    requires rest == Before(part, later)
    ensures whole == Before(done + part, later)
    ensures Add(isCdata, before, done + part) == Add(isCdata, pool, part)
  {
    hide Add;
    AddAppend(isCdata, before, done, part);
    assert later.Ok? ==> done + (part + later.out) == done + part + later.out;
  }

  /** ENTITY */
  class Entity {
    const decl: Decl
    var open: bool

    constructor (decl: Decl)
      ensures this.decl == decl && !open
    {
      this.decl := decl;
      open := false;
    }
  }

  /** The string in progress of the pool, and the general entities. */
  class ValueBuilder {
    var pool: Octets
    const entities: map<Octets, Entity>
    const check: bool

    constructor (entities: map<Octets, Entity>, check: bool)
      ensures pool == [] && this.entities == entities && this.check == check
    {
      pool := [];
      this.entities := entities;
      this.check := check;
    }

    ghost function Decls(): Decls {
      map name | name in entities :: entities[name].decl
    }

    ghost predicate Distinct() {
      forall a, b :: a in entities && b in entities && a != b ==> entities[a] != entities[b]
    }

    /** No character in an entity text is cut. */
    ghost predicate WholeTexts(enc: Encoding) {
      forall a :: a in entities && entities[a].decl.text.Some? ==> WholeFrom(Inner(enc), entities[a].decl.text.value, 0)
    }

    /** The entities that are open. */
    ghost predicate Opened(open: set<Octets>)
      reads entities.Values
    {
      forall a :: a in entities ==> (entities[a].open <==> a in open)
    }

    /** One byte that may be a space. */
    method AppendByte(isCdata: bool, c: byte)
      modifies this`pool
      ensures pool == Add(isCdata, old(pool), [c])
    {
      AddByte(isCdata, pool, c);
      if isCdata || c != SPACE || (pool != [] && pool[|pool| - 1] != SPACE) {
        pool := pool + [c];
      }
    }

    /** The case of a character reference. */
    method AppendCharRef(enc: Encoding, isCdata: bool, s: Octets, ptr: nat, next: nat) returns (error: Option<Error>)
      requires ptr + 4 <= next <= |s| && PieceAt(enc, s, ptr) == RefPiece(Token(CharRef, next), s, ptr)
      modifies this`pool
      ensures Appended(Plain(enc, s, ptr), isCdata, old(pool), pool, error)
      ensures !IsEntityRef(enc, s, ptr)
    {
      hide PieceAt, Utf8Encode, RefNumber;
      var n := CharRefNumber(s[ptr..next]);
      match n
      case None => return Some(BadCharRef);
      case Some(c) =>
        if c >= LIMIT {
          return Some(BadCharRef);
        }
        if c == SPACE {
          AppendByte(isCdata, c);
          SpaceEncoded();
        } else {
          EncodedIsNotSpace(c);
          AddText(isCdata, pool, Utf8Encode(c));
          pool := pool + Utf8Encode(c);
        }
        error := None;
    }

    /** The case of a reference to a general entity: the text of the entity is appended while it is open. */
    method AppendEntity(enc: Encoding, isCdata: bool, name: Octets, ghost open: set<Octets>)
      returns (error: Option<Error>)
      requires Distinct() && WholeTexts(enc) && Opened(open)
      modifies this`pool, entities.Values
      ensures Opened(open)
      ensures match Resolve(Decls(), check, open, name)
              case Skip => error.None? && pool == old(pool)
              case Refuse(e) => error == Some(e)
              case Enter(text) => Appended(Expand(Decls(), check, open + {name}, Inner(enc), text, 0), isCdata,
                                           old(pool), pool, error)
      decreases entities.Keys - open, 0
    {
      hide Expand, Add;
      if name !in entities {
        return if check then Some(UndefinedEntity) else None;
      }
      var entity := entities[name];
      if check && !entity.decl.isInternal {
        return Some(DeclaredInPe);
      }
      if entity.open {
        return Some(RecursiveRef);
      }
      if entity.decl.notation {
        return Some(BinaryRef);
      }
      match entity.decl.text
      case None => return Some(ExternalRef);
      case Some(text) =>
        entity.open := true;
        error := AppendAttributeValue(Inner(enc), isCdata, text, open + {name});
        entity.open := false;
    }

    /** One turn of the loop of appendAttributeValue. */
    method AppendPiece(enc: Encoding, isCdata: bool, s: Octets, ptr: nat, ghost open: set<Octets>)
      returns (error: Option<Error>, next: nat, ghost part: Octets)
      requires Distinct() && WholeTexts(enc) && Opened(open) && ptr < |s| && WholeFrom(enc, s, ptr)
      modifies this`pool, entities.Values
      ensures Opened(open)
      ensures error.None? ==> ptr < next <= |s| && pool == Add(isCdata, old(pool), part) && WholeFrom(enc, s, next)
                              && Expand(Decls(), check, open, enc, s, ptr)
                                 == Before(part, Expand(Decls(), check, open, enc, s, next))
      ensures error.Some? ==> Expand(Decls(), check, open, enc, s, ptr) == Err(error.value)
      decreases entities.Keys - open, 2
    {
      hide PieceAt, Add, WholeFrom, Resolve, IsEntityRef, Plain, Predefined;
      next, part := ptr, [];
      WholeNext(enc, s, ptr);
      var tok := AttributeValueTok(enc, s, ptr);
      match tok
      case BadLt =>
        TokenIsBad(Decls(), check, open, enc, s, ptr);
        error := Some(InvalidToken);
      case DataChars(end) =>
        ExpandText(Decls(), check, open, enc, s, ptr, end);
        AddText(isCdata, pool, s[ptr..end]);
        pool := pool + s[ptr..end];
        error, next, part := None, end, s[ptr..end];
      case WhiteSpace(end) =>
        PlainAt(enc, s, ptr);
        AppendByte(isCdata, SPACE);
        error, next, part := None, end, [SPACE];
      case Reference(r) =>
        match r
        case PartialChar =>
          PlainAt(enc, s, ptr);
          error := Some(UnexpectedState);
        case Invalid =>
          PlainAt(enc, s, ptr);
          error := Some(InvalidToken);
        case Partial =>
          PlainAt(enc, s, ptr);
          error := Some(InvalidToken);
        case Token(kind, end) =>
          PlainAt(enc, s, ptr);
          next := end;
          if kind == CharRef {
            error := AppendCharRef(enc, isCdata, s, ptr, end);
            part := if Plain(enc, s, ptr).Ok? then Plain(enc, s, ptr).out else [];
          } else {
            error, part := AppendNamed(enc, isCdata, s, ptr, end, open);
          }
    }

    /** The case of an entity reference: a predefined one stands for its character. */
    method AppendNamed(enc: Encoding, isCdata: bool, s: Octets, ptr: nat, next: nat, ghost open: set<Octets>)
      returns (error: Option<Error>, ghost part: Octets)
      requires Distinct() && WholeTexts(enc) && Opened(open)
      requires ptr + 1 < next <= |s| && PieceAt(enc, s, ptr) == Named(s[ptr + 1..next - 1], next)
      modifies this`pool, entities.Values
      ensures Opened(open)
      ensures error.None? ==> pool == Add(isCdata, old(pool), part)
                              && Expand(Decls(), check, open, enc, s, ptr)
                                 == Before(part, Expand(Decls(), check, open, enc, s, next))
      ensures error.Some? ==> Expand(Decls(), check, open, enc, s, ptr) == Err(error.value)
      decreases entities.Keys - open, 1
    {
      hide PieceAt, Add, Resolve, Predefined;
      var name := s[ptr + 1..next - 1];
      var ch := Predefined(name);
      part := [];
      match ch
      case Some(c) =>
        PredefinedIsNotSpace(name);
        AppendByte(isCdata, c);
        error, part := None, [c];
      case None =>
        ghost var before := pool;
        error := AppendEntity(enc, isCdata, name, open);
        AddNothing(isCdata, before);
        match Resolve(Decls(), check, open, name)
        case Enter(text) =>
          var inner := Expand(Decls(), check, open + {name}, Inner(enc), text, 0);
          part := if inner.Ok? then inner.out else [];
        case _ =>
    }

    /** appendAttributeValue */
    method AppendAttributeValue(enc: Encoding, isCdata: bool, s: Octets, ghost open: set<Octets>)
      returns (error: Option<Error>)
      requires Distinct() && WholeTexts(enc) && Opened(open) && WholeFrom(enc, s, 0)
      modifies this`pool, entities.Values
      ensures Opened(open)
      ensures Appended(Expand(Decls(), check, open, enc, s, 0), isCdata, old(pool), pool, error)
      decreases entities.Keys - open, 3
    {
      hide Expand, Add, WholeFrom;
      var ptr: nat := 0;
      ghost var done: Octets := [];
      ghost var whole := Expand(Decls(), check, open, enc, s, 0);
      AddNothing(isCdata, pool);
      while ptr != |s|
        invariant ptr <= |s| && Opened(open) && WholeFrom(enc, s, ptr)
        invariant pool == Add(isCdata, old(pool), done)
        invariant whole == Before(done, Expand(Decls(), check, open, enc, s, ptr))
        decreases |s| - ptr
      {
        ghost var before, at := pool, ptr;
        var next: nat;
        ghost var part: Octets;
        error, next, part := AppendPiece(enc, isCdata, s, ptr, open);
        if error.Some? {
          return;
        }
        AppendedMore(whole, Expand(Decls(), check, open, enc, s, ptr), done, part,
                     Expand(Decls(), check, open, enc, s, next), isCdata, old(pool), before);
        ptr, done := next, done + part;
      }
      ExpandEnd(Decls(), check, open, enc, s);
      assert done + [] == done;
      error := None;
    }

    /** storeAttributeValue: a value of another type than CDATA loses a last space. */
    method StoreAttributeValue(enc: Encoding, isCdata: bool, s: Octets) returns (error: Option<Error>)
      requires Distinct() && WholeTexts(enc) && Opened({}) && WholeFrom(enc, s, 0) && pool == []
      modifies this`pool, entities.Values
      ensures Opened({})
      ensures match Expand(Decls(), check, {}, enc, s, 0)
              case Ok(out) => error.None? && pool == if isCdata then out else Joined(Words(out))
              case Err(e) => error == Some(e)
    {
      hide Expand, WholeFrom, Joined, Words, SqueezeAll;
      error := AppendAttributeValue(enc, isCdata, s, {});
      if error.Some? {
        return;
      }
      TokenizedValue(Expand(Decls(), check, {}, enc, s, 0).out);
      if !isCdata && pool != [] && pool[|pool| - 1] == SPACE {
        pool := pool[..|pool| - 1];
      }
    }
  }

  lemma SpaceEncoded()
    ensures Utf8Encode(SPACE) == [SPACE]
  {
  }

  lemma PredefinedIsNotSpace(name: Octets)
    ensures Predefined(name).Some? ==> Predefined(name).value != SPACE
  {
  }

  lemma PlainAt(enc: Encoding, s: Octets, i: nat)
    requires i < |s|
    ensures var p := PieceAt(enc, s, i);
            && (p.White? ==> Plain(enc, s, i) == Ok([SPACE]) && !IsEntityRef(enc, s, i))
            && (p.Wrong? ==> Plain(enc, s, i) == Err(p.error))
  {
    hide PieceAt;
  }

  lemma ExpandEnd(decls: Decls, check: bool, open: set<Octets>, enc: Encoding, s: Octets)
    ensures Expand(decls, check, open, enc, s, |s|) == Ok([])
  {
  }

  lemma TokenIsBad(decls: Decls, check: bool, open: set<Octets>, enc: Encoding, s: Octets, ptr: nat)
    requires ptr < |s| && TokenFits(BadLt, enc, s, ptr)
    ensures Expand(decls, check, open, enc, s, ptr) == Err(InvalidToken)
  {
    hide PieceAt;
    var i :| ptr <= i < |s| && TextRun(enc, s, ptr, i) && PieceAt(enc, s, i) == Wrong(InvalidToken);
    ExpandText(decls, check, open, enc, s, ptr, i);
    PlainAt(enc, s, i);
  }
}
