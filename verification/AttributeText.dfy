/** The normalised value of an attribute, by section 3.3.3 of XML 1.0, and when it exists. */
module AttributeText {
  import opened Bytes
  import opened ByteTypes
  import opened CharacterRefs
  import opened Common
  import opened ContentAutomaton

  const SPACE: byte := 0x20

  /** An entity declaration: replacement text if it is internal, and how it was declared. */
  datatype Decl = Decl(text: Option<Octets>, isInternal: bool, notation: bool)

  type Decls = map<Octets, Decl>

  datatype Error =
    | InvalidToken | UnexpectedState | BadCharRef | UndefinedEntity | DeclaredInPe
    | RecursiveRef | BinaryRef | ExternalRef

  /** The pieces of the text of a value. */
  datatype Piece =
    | Text(end: nat) | White(end: nat) | Number(n: Option<nat>, end: nat) | Named(name: Octets, end: nat)
    | Wrong(error: Error)

  function RefPiece(r: Scan, s: Octets, i: nat): Piece
    requires i < |s| && (r.Token? ==> i + 1 < r.end <= |s|)
  {
    match r
    case Token(tok, end) =>
      if tok == CharRef then Number(RefNumber(s[i..end]), end) else Named(s[i + 1..end - 1], end)
    case PartialChar => Wrong(UnexpectedState)
    case _ => Wrong(InvalidToken)
  }

  /** The piece at a position; two characters that end a line are one piece of white space. */
  function PieceAt(enc: Encoding, s: Octets, i: nat): (p: Piece)
    requires i < |s|
    ensures !p.Wrong? ==> i < p.end <= |s|
  {
    var t := ByteType(enc, s[i]);
    match t
    case Amp => RefPiece(Run(enc, RefOpen(InContent), s, i + 1), s, i)
    case Lt => Wrong(InvalidToken)
    case Cr => White(if i + 1 < |s| && ByteType(enc, s[i + 1]) == Lf then i + 2 else i + 1)
    case Lf | Space => White(i + 1)
    case _ => Text(if CharSize(t) <= |s| - i then i + CharSize(t) else |s|)
  }

  /** What a general entity reference that is not predefined stands for. */
  datatype Target = Skip | Enter(text: Octets) | Refuse(error: Error)

  /** The checks on an entity reference, in order; check tells whether entities must be declared. */
  function Resolve(decls: Decls, check: bool, open: set<Octets>, name: Octets): (t: Target)
    ensures t.Enter? ==> name in decls && name !in open && decls[name].text == Some(t.text)
  {
    if name !in decls then if check then Refuse(UndefinedEntity) else Skip
    else if check && !decls[name].isInternal then Refuse(DeclaredInPe)
    else if name in open then Refuse(RecursiveRef)
    else if decls[name].notation then Refuse(BinaryRef)
    else match decls[name].text
      case None => Refuse(ExternalRef)
      case Some(text) => Enter(text)
  }

  datatype Result = Ok(out: Octets) | Err(error: Error)

  function Before(a: Octets, r: Result): Result {
    if r.Ok? then Ok(a + r.out) else r
  }

  /** Entity text is in the internal encoding. */
  function Inner(enc: Encoding): Encoding {
    enc.(internal := true)
  }

  /** The text of a piece that is not a reference to a general entity; none if the piece is an error. */
  function Plain(enc: Encoding, s: Octets, i: nat): Result
    requires i < |s|
  {
    match PieceAt(enc, s, i)
    case Text(end) => Ok(s[i..end])
    case White(_) => Ok([SPACE])
    case Number(n, _) => if n.Some? && n.value < LIMIT then Ok(Utf8Encode(n.value)) else Err(BadCharRef)
    case Named(name, _) => if Predefined(name).Some? then Ok([Predefined(name).value]) else Ok([])
    case Wrong(e) => Err(e)
  }

  /** The piece at i refers to a general entity. */
  predicate IsEntityRef(enc: Encoding, s: Octets, i: nat)
    requires i < |s|
  {
    var p := PieceAt(enc, s, i);
    p.Named? && Predefined(p.name).None?
  }

  /** The value as character data, with references replaced; open are the entities being replaced. */
  function Expand(decls: Decls, check: bool, open: set<Octets>, enc: Encoding, s: Octets, i: nat): Result
    requires i <= |s|
    decreases decls.Keys - open, |s| - i
  {
    if i == |s| then Ok([]) else
      var p, plain := PieceAt(enc, s, i), Plain(enc, s, i);
      if plain.Err? then plain
      else if !IsEntityRef(enc, s, i) then Before(plain.out, Expand(decls, check, open, enc, s, p.end))
      else match Resolve(decls, check, open, p.name)
        case Skip => Expand(decls, check, open, enc, s, p.end)
        case Refuse(e) => Err(e)
        case Enter(text) =>
          var inner := Expand(decls, check, open + {p.name}, Inner(enc), text, 0);
          if inner.Err? then inner else Before(inner.out, Expand(decls, check, open, enc, s, p.end))
  }

  // ----- white space

  /** Append a character unless it is a space at the start or after a space. */
  function Squeeze(acc: Octets, c: byte): Octets {
    if c == SPACE && (acc == [] || acc[|acc| - 1] == SPACE) then acc else acc + [c]
  }

  function SqueezeAll(acc: Octets, s: Octets): Octets {
    if s == [] then acc else Squeeze(SqueezeAll(acc, s[..|s| - 1]), s[|s| - 1])
  }

  lemma {:induction false} SqueezeAppend(acc: Octets, a: Octets, b: Octets)
    ensures SqueezeAll(acc, a + b) == SqueezeAll(SqueezeAll(acc, a), b)
    decreases |b|
  {
    if b == [] {
      assert a + b == a;
    } else {
      assert (a + b)[..|a + b| - 1] == a + b[..|b| - 1];
      SqueezeAppend(acc, a, b[..|b| - 1]);
    }
  }

  lemma {:induction false} SqueezeText(acc: Octets, s: Octets)
    requires SPACE !in s
    ensures SqueezeAll(acc, s) == acc + s
    decreases |s|
  {
    if s == [] {
      assert acc + s == acc;
    } else {
      var front := s[..|s| - 1];
      SqueezeText(acc, front);
      assert acc + s == acc + front + [s[|s| - 1]];
    }
  }

  /** poolChop of a final space. */
  function Chop(s: Octets): Octets {
    if s != [] && s[|s| - 1] == SPACE then s[..|s| - 1] else s
  }

  /** The words of a text: what stands between spaces. */
  ghost function Words(s: Octets): (ws: seq<Octets>)
    ensures s != [] && s[|s| - 1] != SPACE ==> ws != []
    decreases |s|
  {
    if s == [] then [] else
      var front, c := s[..|s| - 1], s[|s| - 1];
      var ws := Words(front);
      if c == SPACE then ws
      else if front == [] || front[|front| - 1] == SPACE then ws + [[c]]
      else ws[..|ws| - 1] + [ws[|ws| - 1] + [c]]
  }

  ghost function Joined(ws: seq<Octets>): Octets {
    if ws == [] then []
    else if |ws| == 1 then ws[0]
    else Joined(ws[..|ws| - 1]) + [SPACE] + ws[|ws| - 1]
  }

  ghost predicate IsWord(w: Octets) {
    w != [] && SPACE !in w
  }

  lemma {:induction false} WordsAreWords(s: Octets)
    ensures forall k :: 0 <= k < |Words(s)| ==> IsWord(Words(s)[k])
    decreases |s|
  {
    if s != [] {
      WordsAreWords(s[..|s| - 1]);
    }
  }

  lemma JoinedNonEmpty(ws: seq<Octets>)
    requires ws != [] && forall k :: 0 <= k < |ws| ==> IsWord(ws[k])
    ensures Joined(ws) != [] && Joined(ws)[|Joined(ws)| - 1] != SPACE
  {
  }

  lemma JoinedLast(ws: seq<Octets>, c: byte)
    requires ws != []
    ensures Joined(ws[..|ws| - 1] + [ws[|ws| - 1] + [c]]) == Joined(ws) + [c]
  {
    var last := ws[|ws| - 1];
    var vs := ws[..|ws| - 1] + [last + [c]];
    assert vs[..|vs| - 1] == ws[..|ws| - 1];
    if |ws| > 1 {
      assert Joined(vs) == Joined(ws[..|ws| - 1]) + [SPACE] + (last + [c]);
    }
  }

  lemma JoinedNone()
    ensures Joined([]) == []
  {
  }

  lemma JoinedMore(ws: seq<Octets>, w: Octets)
    ensures Joined(ws + [w]) == if ws == [] then w else Joined(ws) + [SPACE] + w
  {
  }

  /** Squeezing on the fly leaves the words joined by single spaces, and a last space if the text ends in one. */
  lemma {:induction false} SqueezedIs(s: Octets)
    ensures SqueezeAll([], s) ==
            Joined(Words(s)) + if s != [] && s[|s| - 1] == SPACE && Words(s) != [] then [SPACE] else []
    decreases |s|
  {
    hide Joined;
    if s == [] {
      JoinedNone();
    } else {
      var front, c := s[..|s| - 1], s[|s| - 1];
      SqueezedIs(front);
      WordsAreWords(front);
      JoinedNone();
      if Words(front) != [] {
        JoinedNonEmpty(Words(front));
        JoinedLast(Words(front), c);
      }
      JoinedMore(Words(front), [c]);
    }
  }

  /** Section 3.3.3: leading and trailing spaces are dropped, runs of spaces become one space. */
  lemma TokenizedValue(s: Octets)
    ensures Chop(SqueezeAll([], s)) == Joined(Words(s))
  {
    hide Words, Joined, SqueezeAll;
    SqueezedIs(s);
    WordsAreWords(s);
    if Words(s) != [] {
      JoinedNonEmpty(Words(s));
    } else {
      NoWords(s);
    }
  }

  lemma NoWords(s: Octets)
    requires Words(s) == []
    ensures Joined(Words(s)) == []
  {
  }

  // ----- the full substitution

  /**
   * How far the references of a text are replaced: at each reference that is replaced, the replacements in the
   * entity's text and those in what follows.
   */
  datatype Tree = Nil | Node(inner: Tree, later: Tree)

  ghost function Size(d: Tree): nat {
    if d.Nil? then 0 else 1 + Size(d.inner) + Size(d.later)
  }

  /** The substitution of a text along a tree, with no regard to open entities; none if the tree does not fit. */
  ghost function Substituted(decls: Decls, check: bool, enc: Encoding, s: Octets, i: nat, d: Tree): Option<Octets>
    requires i <= |s|
    decreases d, |s| - i
  {
    if i == |s| then if d.Nil? then Some([]) else None else
      var p, plain := PieceAt(enc, s, i), Plain(enc, s, i);
      if plain.Err? then None
      else if !IsEntityRef(enc, s, i) then Joining(plain.out, Substituted(decls, check, enc, s, p.end, d))
      else match Resolve(decls, check, {}, p.name)
        case Skip => Substituted(decls, check, enc, s, p.end, d)
        case Refuse(e) => None
        case Enter(text) =>
          if d.Nil? then None else
            var inner := Substituted(decls, check, Inner(enc), text, 0, d.inner);
            if inner.None? then None else Joining(inner.value, Substituted(decls, check, enc, s, p.end, d.later))
  }

  ghost function Joining(a: Octets, r: Option<Octets>): Option<Octets> {
    if r.Some? then Some(a + r.value) else None
  }

  /** A text has at most one full substitution. */
  lemma {:induction false} OneTree(decls: Decls, check: bool, enc: Encoding, s: Octets, i: nat, d: Tree, e: Tree)
    requires i <= |s|
    requires Substituted(decls, check, enc, s, i, d).Some? && Substituted(decls, check, enc, s, i, e).Some?
    ensures d == e
    decreases d, |s| - i
  {
    hide PieceAt, Plain, IsEntityRef, Resolve;
    if i < |s| {
      var p := PieceAt(enc, s, i);
      if !IsEntityRef(enc, s, i) {
        PlainEnds(enc, s, i);
        OneTree(decls, check, enc, s, p.end, d, e);
      } else {
        EntityRefNamed(enc, s, i);
        match Resolve(decls, check, {}, p.name)
        case Skip => OneTree(decls, check, enc, s, p.end, d, e);
        case Enter(text) =>
          OneTree(decls, check, Inner(enc), text, 0, d.inner, e.inner);
          OneTree(decls, check, enc, s, p.end, d.later, e.later);
        case _ =>
      }
    }
  }

  lemma PlainEnds(enc: Encoding, s: Octets, i: nat)
    requires i < |s| && Plain(enc, s, i).Ok?
    ensures !PieceAt(enc, s, i).Wrong?
  {
    hide PieceAt;
  }

  lemma EntityRefNamed(enc: Encoding, s: Octets, i: nat)
    requires i < |s| && IsEntityRef(enc, s, i)
    ensures PieceAt(enc, s, i).Named? && Plain(enc, s, i) == Ok([])
  {
    hide PieceAt;
  }

  /** Where an entity is not open, it resolves as if none were. */
  lemma ResolveClosed(decls: Decls, check: bool, open: set<Octets>, name: Octets)
    ensures var t := Resolve(decls, check, open, name);
            if t == Refuse(RecursiveRef) then name in open
            else Resolve(decls, check, {}, name) == t
  {
  }

  /** What is expanded without an error is a full substitution. */
  lemma {:induction false} ExpandedIsSubstituted(decls: Decls, check: bool, open: set<Octets>, enc: Encoding,
                                                 s: Octets, i: nat) returns (d: Tree)
    requires i <= |s| && Expand(decls, check, open, enc, s, i).Ok?
    ensures Substituted(decls, check, enc, s, i, d) == Some(Expand(decls, check, open, enc, s, i).out)
    decreases decls.Keys - open, |s| - i
  {
    hide PieceAt, Plain, IsEntityRef, Resolve;
    d := Nil;
    if i < |s| {
      var p := PieceAt(enc, s, i);
      if !IsEntityRef(enc, s, i) {
        PlainEnds(enc, s, i);
        d := ExpandedIsSubstituted(decls, check, open, enc, s, p.end);
      } else {
        EntityRefNamed(enc, s, i);
        ResolveClosed(decls, check, open, p.name);
        match Resolve(decls, check, open, p.name)
        case Skip => d := ExpandedIsSubstituted(decls, check, open, enc, s, p.end);
        case Enter(text) =>
          var inner := ExpandedIsSubstituted(decls, check, open + {p.name}, Inner(enc), text, 0);
          var later := ExpandedIsSubstituted(decls, check, open, enc, s, p.end);
          d := Node(inner, later);
        case _ =>
      }
    }
  }

  /** Every open entity has a full substitution that is at least as large as this. */
  ghost predicate Inside(decls: Decls, check: bool, enc: Encoding, open: set<Octets>, n: nat) {
    forall name, d ::
      (name in open && name in decls && decls[name].text.Some?
       && Substituted(decls, check, Inner(enc), decls[name].text.value, 0, d).Some?) ==> n <= Size(d)
  }

  /** What has a full substitution is expanded to it: no open entity is met again. */
  lemma {:induction false} SubstitutedIsExpanded(decls: Decls, check: bool, open: set<Octets>, enc: Encoding,
                                                 s: Octets, i: nat, d: Tree)
    requires i <= |s| && Substituted(decls, check, enc, s, i, d).Some?
    requires Inside(decls, check, enc, open, Size(d))
    ensures Expand(decls, check, open, enc, s, i) == Ok(Substituted(decls, check, enc, s, i, d).value)
    decreases decls.Keys - open, |s| - i
  {
    hide PieceAt, Plain, IsEntityRef, Resolve;
    if i < |s| {
      var p := PieceAt(enc, s, i);
      if !IsEntityRef(enc, s, i) {
        PlainEnds(enc, s, i);
        SubstitutedIsExpanded(decls, check, open, enc, s, p.end, d);
      } else {
        EntityRefNamed(enc, s, i);
        ResolveClosed(decls, check, open, p.name);
        match Resolve(decls, check, {}, p.name)
        case Skip =>
          SkipAlways(decls, check, open, p.name);
          SubstitutedIsExpanded(decls, check, open, enc, s, p.end, d);
        case Enter(text) =>
          NotInside(decls, check, enc, open, p.name, d);
          EnterClosed(decls, check, open, p.name);
          InsideMore(decls, check, enc, open, p.name, d.inner, Size(d));
          SubstitutedIsExpanded(decls, check, open + {p.name}, Inner(enc), text, 0, d.inner);
          SubstitutedIsExpanded(decls, check, open, enc, s, p.end, d.later);
        case _ =>
      }
    }
  }

  lemma SkipAlways(decls: Decls, check: bool, open: set<Octets>, name: Octets)
    requires Resolve(decls, check, {}, name).Skip?
    ensures Resolve(decls, check, open, name).Skip?
  {
  }

  lemma EnterClosed(decls: Decls, check: bool, open: set<Octets>, name: Octets)
    requires Resolve(decls, check, {}, name).Enter? && name !in open
    ensures Resolve(decls, check, open, name) == Resolve(decls, check, {}, name)
  {
  }

  lemma NotInside(decls: Decls, check: bool, enc: Encoding, open: set<Octets>, name: Octets, d: Tree)
    requires d.Node? && name in decls && decls[name].text.Some?
    requires Substituted(decls, check, Inner(enc), decls[name].text.value, 0, d.inner).Some?
    requires Inside(decls, check, enc, open, Size(d))
    ensures name !in open
  {
    hide Substituted;
    assert Size(d.inner) < Size(d);
  }

  lemma InsideMore(decls: Decls, check: bool, enc: Encoding, open: set<Octets>, name: Octets, d: Tree, n: nat)
    requires name in decls && decls[name].text.Some?
    requires Substituted(decls, check, Inner(enc), decls[name].text.value, 0, d).Some?
    requires Inside(decls, check, enc, open, n) && Size(d) <= n
    ensures Inside(decls, check, Inner(enc), open + {name}, Size(d))
  {
    hide Substituted;
    assert Inner(Inner(enc)) == Inner(enc);
    forall e | Substituted(decls, check, Inner(enc), decls[name].text.value, 0, e).Some?
      ensures e == d
    {
      OneTree(decls, check, Inner(enc), decls[name].text.value, 0, d, e);
    }
  }

  /** Expansion gives the full recursive substitution exactly when there is a finite one. */
  lemma ExpansionIsFullSubstitution(decls: Decls, check: bool, enc: Encoding, s: Octets, out: Octets)
    ensures Expand(decls, check, {}, enc, s, 0) == Ok(out) <==>
            exists d :: Substituted(decls, check, enc, s, 0, d) == Some(out)
  {
    hide Expand, Substituted;
    if Expand(decls, check, {}, enc, s, 0) == Ok(out) {
      var d := ExpandedIsSubstituted(decls, check, {}, enc, s, 0);
    }
    if exists d :: Substituted(decls, check, enc, s, 0, d) == Some(out) {
      var d :| Substituted(decls, check, enc, s, 0, d) == Some(out);
      SubstitutedIsExpanded(decls, check, {}, enc, s, 0, d);
    }
  }

  // ----- legal text

  /** Every piece is good, and every reference is to a declared, parsed internal entity. */
  ghost predicate Legal(decls: Decls, check: bool, enc: Encoding, s: Octets, i: nat)
    requires i <= |s|
    decreases |s| - i
  {
    i == |s| ||
    (var p := PieceAt(enc, s, i);
     && Plain(enc, s, i).Ok?
     && (IsEntityRef(enc, s, i) ==> Resolve(decls, check, {}, p.name).Enter?)
     && Legal(decls, check, enc, s, p.end))
  }

  ghost predicate LegalEntities(decls: Decls, check: bool, enc: Encoding) {
    forall name :: name in decls && decls[name].text.Some? ==>
      Legal(decls, check, Inner(enc), decls[name].text.value, 0)
  }

  /** From legal text the outcome is the full substitution or the report of a recursive reference. */
  lemma {:induction false} LegalExpands(decls: Decls, check: bool, open: set<Octets>, enc: Encoding, s: Octets, i: nat)
    requires i <= |s| && Legal(decls, check, enc, s, i) && LegalEntities(decls, check, enc)
    ensures var r := Expand(decls, check, open, enc, s, i); r.Ok? || r == Err(RecursiveRef)
    decreases decls.Keys - open, |s| - i
  {
    hide PieceAt, Plain, IsEntityRef, Resolve;
    if i < |s| {
      var p := PieceAt(enc, s, i);
      PlainEnds(enc, s, i);
      LegalExpands(decls, check, open, enc, s, p.end);
      if IsEntityRef(enc, s, i) {
        EntityRefNamed(enc, s, i);
        ResolveClosed(decls, check, open, p.name);
        var t := Resolve(decls, check, open, p.name);
        if t.Enter? {
          assert Inner(Inner(enc)) == Inner(enc);
          LegalExpands(decls, check, open + {p.name}, Inner(enc), t.text, 0);
        }
      }
    }
  }
}
