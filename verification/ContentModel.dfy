/** Element content models: trees, the tokens that declare them, and the reading of tokens as a tree. */
module ContentModel {
  import opened Common

  datatype Quant = NoQuant | Opt | Rep | Plus

  datatype Kind = Mixed | Choice | Sequence

  /** EMPTY or ANY, a name, or a group. */
  datatype Cp =
    | Fixed(any: bool) | Leaf(name: string, quant: Quant) | Group(kind: Kind, quant: Quant, children: seq<Cp>)

  /** The tokens between the element name and the end of a declaration, white space left out. */
  datatype Token = OpenParen | Close(quant: Quant) | NameTok(name: string, quant: Quant) | Pcdata | Comma | Or

  // ----- the tokens of a tree

  function Keyword(any: bool): Token {
    NameTok(if any then "ANY" else "EMPTY", NoQuant)
  }

  function Connector(kind: Kind): Token {
    if kind == Sequence then Comma else Or
  }

  function Tokens(cp: Cp): seq<Token>
    decreases cp
  {
    match cp
    case Fixed(any) => [Keyword(any)]
    case Leaf(name, quant) => [NameTok(name, quant)]
    case Group(kind, quant, children) =>
      [OpenParen] + (if kind == Mixed then [Pcdata] else []) + Items(kind, children) + [Close(quant)]
  }

  /** The items of a group; after #PCDATA every item follows a connector. */
  function Items(kind: Kind, children: seq<Cp>): seq<Token>
    decreases children
  {
    if children == [] then [] else
      Items(kind, children[..|children| - 1])
      + (if |children| > 1 || kind == Mixed then [Connector(kind)] else [])
      + Tokens(children[|children| - 1])
  }

  /** A group inside a model, or a name: one kind of connector, at least one item, two for a choice. */
  predicate Inner(cp: Cp)
    decreases cp
  {
    match cp
    case Fixed(_) => false
    case Leaf(_, _) => true
    case Group(kind, _, children) =>
      && kind != Mixed && children != [] && (kind == Choice ==> |children| >= 2)
      && forall k :: 0 <= k < |children| ==> Inner(children[k])
  }

  /** What can be declared: a group, or mixed content with plain names. */
  predicate Declarable(cp: Cp) {
    match cp
    case Fixed(_) => true
    case Leaf(_, _) => false
    case Group(kind, quant, children) =>
      if kind == Mixed then
        && (if children == [] then quant == NoQuant || quant == Rep else quant == Rep)
        && forall k :: 0 <= k < |children| ==> children[k].Leaf? && children[k].quant == NoQuant
      else Inner(cp)
  }

  // ----- reading tokens

  /** A group that is open: the connector seen in it, Mixed after #PCDATA, and the items read. */
  datatype Frame = Frame(conn: Option<Kind>, children: seq<Cp>)

  /** What may come next; the names follow the handlers element2 to element7. */
  datatype Phase = First | AfterPcdata | MixedName | AfterMixedName | Item | Next

  datatype Reader = Start | Reading(phase: Phase, stack: seq<Frame>) | Done(cp: Cp) | Refused

  function KindOf(conn: Option<Kind>): Kind {
    if conn.None? then Sequence else conn.value
  }

  function AddItem(stack: seq<Frame>, cp: Cp): (r: seq<Frame>)
    requires stack != []
    ensures |r| == |stack|
  {
    var top := stack[|stack| - 1];
    stack[|stack| - 1 := top.(children := top.children + [cp])]
  }

  function Connect(stack: seq<Frame>, kind: Kind): (r: seq<Frame>)
    requires stack != []
    ensures |r| == |stack|
  {
    stack[|stack| - 1 := stack[|stack| - 1].(conn := Some(kind))]
  }

  function CloseTop(stack: seq<Frame>, quant: Quant): Reader
    requires stack != []
  {
    var top := stack[|stack| - 1];
    var cp := Group(KindOf(top.conn), quant, top.children);
    if |stack| == 1 then Done(cp) else Reading(Next, AddItem(stack[..|stack| - 1], cp))
  }

  function StepItem(stack: seq<Frame>, tok: Token): Reader
    requires stack != []
  {
    match tok
    case OpenParen => Reading(Item, stack + [Frame(None, [])])
    case NameTok(name, quant) => Reading(Next, AddItem(stack, Leaf(name, quant)))
    case _ => Refused
  }

  function StepNext(stack: seq<Frame>, tok: Token): Reader
    requires stack != []
  {
    var conn := stack[|stack| - 1].conn;
    match tok
    case Close(quant) => CloseTop(stack, quant)
    case Comma => if conn == Some(Choice) then Refused else Reading(Item, Connect(stack, Sequence))
    case Or => if conn == Some(Sequence) then Refused else Reading(Item, Connect(stack, Choice))
    case _ => Refused
  }

  function Step(r: Reader, tok: Token): Reader {
    match r
    case Start =>
      if tok == OpenParen then Reading(First, [Frame(None, [])])
      else if tok == Keyword(false) then Done(Fixed(false))
      else if tok == Keyword(true) then Done(Fixed(true))
      else Refused
    case Reading(phase, stack) =>
      if stack == [] then Refused else
        (match phase
         case First => if tok == Pcdata then Reading(AfterPcdata, Connect(stack, Mixed)) else StepItem(stack, tok)
         case AfterPcdata =>
           if tok == Close(NoQuant) || tok == Close(Rep) then CloseTop(stack, tok.quant)
           else if tok == Or then Reading(MixedName, stack) else Refused
         case MixedName =>
           if tok.NameTok? && tok.quant == NoQuant then Reading(AfterMixedName, AddItem(stack, Leaf(tok.name, NoQuant)))
           else Refused
         case AfterMixedName =>
           if tok == Close(Rep) then CloseTop(stack, Rep)
           else if tok == Or then Reading(MixedName, stack) else Refused
         case Item => StepItem(stack, tok)
         case Next => StepNext(stack, tok))
    case _ => Refused
  }

  function Run(r: Reader, toks: seq<Token>): Reader
    decreases |toks|
  {
    if toks == [] then r else Run(Step(r, toks[0]), toks[1..])
  }

  lemma {:induction false} RunAppend(r: Reader, a: seq<Token>, b: seq<Token>)
    ensures Run(r, a + b) == Run(Run(r, a), b)
    decreases |a|
  {
    hide Step;
    if a == [] {
      assert a + b == b;
    } else {
      assert (a + b)[1..] == a[1..] + b;
      RunAppend(Step(r, a[0]), a[1..], b);
    }
  }

  lemma RunOne(r: Reader, tok: Token)
    ensures Run(r, [tok]) == Step(r, tok)
  {
  }

  // ----- what is accepted is what the tree declares

  /** An item is awaited, after a connector unless it is the first. */
  predicate Awaits(phase: Phase) {
    phase == First || phase == Item || phase == MixedName
  }

  ghost function FrameText(f: Frame, awaits: bool): seq<Token> {
    [OpenParen] + (if f.conn == Some(Mixed) then [Pcdata] else []) + Items(KindOf(f.conn), f.children)
    + (if awaits && f.conn.Some? then [Connector(f.conn.value)] else [])
  }

  /** The tokens read so far. */
  ghost function Text(stack: seq<Frame>, awaits: bool): seq<Token> {
    if stack == [] then [] else Text(stack[..|stack| - 1], true) + FrameText(stack[|stack| - 1], awaits)
  }

  ghost predicate FrameOk(f: Frame, awaits: bool) {
    && f.conn != Some(Mixed)
    && (if f.conn.None? then |f.children| == (if awaits then 0 else 1)
        else |f.children| >= (if awaits then 1 else 2))
    && forall k :: 0 <= k < |f.children| ==> Inner(f.children[k])
  }

  ghost predicate MixedOk(f: Frame, phase: Phase) {
    && f.conn == Some(Mixed)
    && (phase == AfterPcdata ==> f.children == []) && (phase == AfterMixedName ==> f.children != [])
    && forall k :: 0 <= k < |f.children| ==> f.children[k].Leaf? && f.children[k].quant == NoQuant
  }

  ghost predicate StackOk(phase: Phase, stack: seq<Frame>) {
    && stack != []
    && (if phase == AfterPcdata || phase == MixedName || phase == AfterMixedName then
          |stack| == 1 && MixedOk(stack[0], phase)
        else
          && (forall k :: 0 <= k < |stack| - 1 ==> FrameOk(stack[k], true))
          && FrameOk(stack[|stack| - 1], Awaits(phase)))
    && (phase == First ==> stack == [Frame(None, [])])
  }

  /** The state of reading after these tokens. */
  ghost predicate Reads(r: Reader, toks: seq<Token>) {
    match r
    case Start => toks == []
    case Reading(phase, stack) => StackOk(phase, stack) && Text(stack, Awaits(phase)) == toks
    case Done(cp) => Declarable(cp) && Tokens(cp) == toks
    case Refused => true
  }

  lemma AddedFrame(f: Frame, cp: Cp)
    requires if f.conn.None? then f.children == [] else f.conn == Some(Mixed) || f.children != []
    ensures FrameText(f.(children := f.children + [cp]), false) == FrameText(f, true) + Tokens(cp)
  {
    hide Tokens, Items;
    ItemsAdd(KindOf(f.conn), f.children, cp);
  }

  /** The text of a stack, by its top. */
  lemma TextTop(stack: seq<Frame>, top: Frame, awaits: bool)
    requires stack != []
    ensures Text(stack[|stack| - 1 := top], awaits) == Text(stack[..|stack| - 1], true) + FrameText(top, awaits)
  {
    hide FrameText;
    var now := stack[|stack| - 1 := top];
    assert now[..|now| - 1] == stack[..|stack| - 1];
  }

  lemma AddedText(stack: seq<Frame>, cp: Cp)
    requires stack != []
    requires var f := stack[|stack| - 1]; if f.conn.None? then f.children == [] else f.conn == Some(Mixed) || f.children != []
    ensures Text(AddItem(stack, cp), false) == Text(stack, true) + Tokens(cp)
  {
    hide FrameText, Items, Tokens, Text;
    var f := stack[|stack| - 1];
    AddedFrame(f, cp);
    TextTop(stack, f.(children := f.children + [cp]), false);
    TextTop(stack, f, true);
    assert stack[|stack| - 1 := f] == stack;
  }

  lemma ItemsAdd(kind: Kind, children: seq<Cp>, cp: Cp)
    ensures Items(kind, children + [cp]) ==
            Items(kind, children) + (if children != [] || kind == Mixed then [Connector(kind)] else []) + Tokens(cp)
  {
  }

  lemma ConnectedText(stack: seq<Frame>, kind: Kind)
    requires stack != [] && kind != Mixed
    requires var f := stack[|stack| - 1]; f.conn == Some(kind) || (f.conn.None? && |f.children| == 1)
    ensures Text(Connect(stack, kind), true) == Text(stack, false) + [Connector(kind)]
  {
    hide FrameText, Items, Text;
    var f := stack[|stack| - 1];
    ConnectedFrame(f, kind);
    TextTop(stack, f.(conn := Some(kind)), true);
    TextTop(stack, f, false);
    assert stack[|stack| - 1 := f] == stack;
  }

  lemma ConnectedFrame(f: Frame, kind: Kind)
    requires kind != Mixed && (f.conn == Some(kind) || (f.conn.None? && |f.children| == 1))
    ensures FrameText(f.(conn := Some(kind)), true) == FrameText(f, false) + [Connector(kind)]
  {
    hide Items;
    if f.conn.None? {
      OneItem(kind, f.children);
    }
  }

  /** A single item shows no connector. */
  lemma OneItem(kind: Kind, children: seq<Cp>)
    requires |children| == 1 && kind != Mixed
    ensures Items(kind, children) == Items(Sequence, children)
  {
  }

  lemma ClosedText(f: Frame, quant: Quant)
    ensures FrameText(f, false) + [Close(quant)] == Tokens(Group(KindOf(f.conn), quant, f.children))
  {
  }

  lemma PushedText(stack: seq<Frame>)
    ensures Text(stack + [Frame(None, [])], true) == Text(stack, true) + [OpenParen]
  {
    hide FrameText;
    var now := stack + [Frame(None, [])];
    assert now[..|stack|] == stack;
    NewFrame();
  }

  lemma NewFrame()
    ensures FrameText(Frame(None, []), true) == [OpenParen]
    ensures FrameText(Frame(Some(Mixed), []), false) == [OpenParen, Pcdata]
  {
  }

  lemma MixedText(stack: seq<Frame>)
    requires stack == [Frame(None, [])]
    ensures Text(Connect(stack, Mixed), false) == Text(stack, true) + [Pcdata]
  {
  }

  lemma SingleText(stack: seq<Frame>, awaits: bool)
    requires |stack| == 1
    ensures Text(stack, awaits) == FrameText(stack[0], awaits)
  {
  }

  lemma MoreMixedText(f: Frame)
    requires f.conn == Some(Mixed)
    ensures FrameText(f, true) == FrameText(f, false) + [Or]
  {
  }

  lemma CloseReads(phase: Phase, stack: seq<Frame>, quant: Quant, toks: seq<Token>)
    requires StackOk(phase, stack) && Text(stack, false) == toks && !Awaits(phase)
    requires phase == AfterPcdata ==> quant == NoQuant || quant == Rep
    requires phase == AfterMixedName ==> quant == Rep
    ensures Reads(CloseTop(stack, quant), toks + [Close(quant)])
  {
    hide Tokens, Items;
    var top, below := stack[|stack| - 1], stack[..|stack| - 1];
    var cp := Group(KindOf(top.conn), quant, top.children);
    ClosedText(top, quant);
    assert Text(below, true) + FrameText(top, false) + [Close(quant)] == Text(below, true) + Tokens(cp);
    if |stack| == 1 {
      assert Text(below, true) == [];
    } else {
      AddedText(below, cp);
      ClosedOk(below, stack, cp);
    }
  }

  lemma ClosedOk(below: seq<Frame>, stack: seq<Frame>, cp: Cp)
    requires StackOk(Next, stack) && |stack| > 1 && below == stack[..|stack| - 1] && Inner(cp)
    ensures StackOk(Next, AddItem(below, cp))
  {
  }

  lemma ItemReads(phase: Phase, stack: seq<Frame>, tok: Token, toks: seq<Token>)
    requires StackOk(phase, stack) && Text(stack, true) == toks && (phase == First || phase == Item)
    ensures Reads(StepItem(stack, tok), toks + [tok])
  {
    hide Items, Text;
    match tok
    case OpenParen =>
      PushedText(stack);
      PushedOk(phase, stack);
    case NameTok(name, quant) =>
      AddedText(stack, Leaf(name, quant));
      assert Tokens(Leaf(name, quant)) == [tok];
    case _ =>
  }

  lemma PushedOk(phase: Phase, stack: seq<Frame>)
    requires StackOk(phase, stack) && (phase == First || phase == Item)
    ensures StackOk(Item, stack + [Frame(None, [])])
  {
  }

  lemma NextOk(stack: seq<Frame>)
    requires StackOk(Next, stack)
    ensures var f := stack[|stack| - 1];
            || (f.conn.None? && |f.children| == 1)
            || ((f.conn == Some(Choice) || f.conn == Some(Sequence)) && |f.children| >= 2)
    ensures forall kind :: kind != Mixed && (stack[|stack| - 1].conn.None? || stack[|stack| - 1].conn == Some(kind)) ==>
              StackOk(Item, Connect(stack, kind))
  {
    hide Inner;
    var f := stack[|stack| - 1];
    if f.conn.Some? {
      match f.conn.value
      case Mixed =>
      case Choice =>
      case Sequence =>
    }
  }

  lemma NextReads(stack: seq<Frame>, tok: Token, toks: seq<Token>)
    requires StackOk(Next, stack) && Text(stack, false) == toks
    ensures Reads(StepNext(stack, tok), toks + [tok])
  {
    hide Items, Text, Inner;
    var top := stack[|stack| - 1];
    NextOk(stack);
    match tok
    case Close(quant) => CloseReads(Next, stack, quant, toks);
    case Comma =>
      if top.conn != Some(Choice) {
        ConnectedText(stack, Sequence);
      }
    case Or =>
      if top.conn != Some(Sequence) {
        ConnectedText(stack, Choice);
      }
    case _ =>
  }

  /** Every step keeps the correspondence of tokens and trees. */
  lemma StepReads(r: Reader, tok: Token, toks: seq<Token>)
    requires Reads(r, toks)
    ensures Reads(Step(r, tok), toks + [tok])
  {
    hide Items, Text, Inner, StepItem, StepNext, CloseTop;
    match r
    case Start => StartReads(tok);
    case Reading(phase, stack) =>
      match phase {
        case First =>
          if tok == Pcdata {
            MixedText(stack);
          } else {
            ItemReads(First, stack, tok, toks);
          }
        case AfterPcdata => MixedReads(phase, stack, tok, toks);
        case AfterMixedName => MixedReads(phase, stack, tok, toks);
        case MixedName =>
          if tok.NameTok? && tok.quant == NoQuant {
            AddedText(stack, Leaf(tok.name, NoQuant));
            assert Tokens(Leaf(tok.name, NoQuant)) == [tok];
          }
        case Item => ItemReads(Item, stack, tok, toks);
        case Next => NextReads(stack, tok, toks);
      }
    case _ =>
  }

  lemma StartReads(tok: Token)
    ensures Reads(Step(Start, tok), [tok])
  {
    KeywordsDiffer();
    assert Tokens(Fixed(true)) == [Keyword(true)] && Tokens(Fixed(false)) == [Keyword(false)];
    PushedText([]);
    assert [] + [Frame(None, [])] == [Frame(None, [])];
  }

  lemma MixedReads(phase: Phase, stack: seq<Frame>, tok: Token, toks: seq<Token>)
    requires (phase == AfterPcdata || phase == AfterMixedName) && StackOk(phase, stack) && Text(stack, false) == toks
    ensures Reads(Step(Reading(phase, stack), tok), toks + [tok])
  {
    hide Items, Text, CloseTop;
    if tok.Close? && (tok.quant == Rep || (phase == AfterPcdata && tok.quant == NoQuant)) {
      CloseReads(phase, stack, tok.quant, toks);
    } else if tok == Or {
      MoreMixedText(stack[0]);
      SingleText(stack, true);
      SingleText(stack, false);
    }
  }

  lemma {:induction false} RunReads(r: Reader, toks: seq<Token>, more: seq<Token>)
    requires Reads(r, toks)
    ensures Reads(Run(r, more), toks + more)
    decreases |more|
  {
    hide Step, Reads;
    if more == [] {
      assert toks + more == toks;
    } else {
      StepReads(r, more[0], toks);
      RunReads(Step(r, more[0]), toks + [more[0]], more[1..]);
      assert toks + [more[0]] + more[1..] == toks + more;
    }
  }

  // ----- what a tree declares is accepted

  function ConnOf(kind: Kind, n: nat): Option<Kind> {
    if n >= 2 then Some(kind) else None
  }

  lemma RunTwo(r: Reader, a: Token, b: Token)
    ensures Run(r, [a, b]) == Step(Step(r, a), b)
  {
    hide Step;
    RunOne(Step(r, a), b);
    assert [a, b][1..] == [b];
  }

  lemma {:induction false} InnerRuns(phase: Phase, stack: seq<Frame>, cp: Cp)
    requires (phase == First || phase == Item) && stack != [] && Inner(cp)
    ensures Run(Reading(phase, stack), Tokens(cp)) == Reading(Next, AddItem(stack, cp))
    decreases cp
  {
    hide Run, Items, Inner;
    match cp
    case Fixed(_) => NotInner(cp);
    case Leaf(name, quant) => RunOne(Reading(phase, stack), NameTok(name, quant));
    case Group(kind, quant, children) =>
      InnerGroup(cp);
      var r := Reading(phase, stack);
      var begun := stack + [Frame(None, [])];
      RunOne(r, OpenParen);
      RunAppend(r, [OpenParen], Items(kind, children));
      ItemsRun(Item, stack, kind, children);
      RunAppend(r, [OpenParen] + Items(kind, children), [Close(quant)]);
      var closing := stack + [Frame(ConnOf(kind, |children|), children)];
      RunOne(Reading(Next, closing), Close(quant));
      assert closing[..|closing| - 1] == stack;
      assert [OpenParen] + [] + Items(kind, children) == [OpenParen] + Items(kind, children);
  }

  lemma NotInner(cp: Cp)
    ensures Inner(cp) ==> !cp.Fixed?
  {
  }

  lemma InnerGroup(cp: Cp)
    requires cp.Group? && Inner(cp)
    ensures cp.kind != Mixed && cp.children != [] && KindOf(ConnOf(cp.kind, |cp.children|)) == cp.kind
    ensures forall k :: 0 <= k < |cp.children| ==> Inner(cp.children[k])
  {
  }

  /** Reading the items of a group that has just been opened. */
  lemma {:induction false} ItemsRun(phase: Phase, below: seq<Frame>, kind: Kind, children: seq<Cp>)
    requires (phase == First || phase == Item) && kind != Mixed && children != []
    requires forall k :: 0 <= k < |children| ==> Inner(children[k])
    ensures Run(Reading(phase, below + [Frame(None, [])]), Items(kind, children)) ==
            Reading(Next, below + [Frame(ConnOf(kind, |children|), children)])
    decreases children
  {
    hide Run, Inner, Tokens;
    var r := Reading(phase, below + [Frame(None, [])]);
    var front, last := children[..|children| - 1], children[|children| - 1];
    if front == [] {
      assert Items(kind, children) == Tokens(last);
      InnerRuns(phase, below + [Frame(None, [])], last);
      AddedTo(below, Frame(None, []), last);
      assert [] + [last] == children;
    } else {
      ItemsRun(phase, below, kind, front);
      var now, later := below + [Frame(ConnOf(kind, |front|), front)], below + [Frame(Some(kind), front)];
      RunAppend(r, Items(kind, front), [Connector(kind)]);
      RunOne(Reading(Next, now), Connector(kind));
      Connected(below, kind, front);
      RunAppend(r, Items(kind, front) + [Connector(kind)], Tokens(last));
      InnerRuns(Item, later, last);
      AddedTo(below, Frame(Some(kind), front), last);
      assert front + [last] == children;
    }
  }

  lemma AddedTo(below: seq<Frame>, f: Frame, cp: Cp)
    ensures AddItem(below + [f], cp) == below + [f.(children := f.children + [cp])]
  {
  }

  lemma Connected(below: seq<Frame>, kind: Kind, front: seq<Cp>)
    requires kind != Mixed && front != []
    ensures Step(Reading(Next, below + [Frame(ConnOf(kind, |front|), front)]), Connector(kind)) ==
            Reading(Item, below + [Frame(Some(kind), front)])
  {
  }

  lemma {:induction false} MixedRun(children: seq<Cp>)
    requires forall k :: 0 <= k < |children| ==> children[k].Leaf? && children[k].quant == NoQuant
    ensures Run(Reading(AfterPcdata, [Frame(Some(Mixed), [])]), Items(Mixed, children)) ==
            Reading(if children == [] then AfterPcdata else AfterMixedName, [Frame(Some(Mixed), children)])
    decreases |children|
  {
    if children != [] {
      var r := Reading(AfterPcdata, [Frame(Some(Mixed), [])]);
      var front, last := children[..|children| - 1], children[|children| - 1];
      MixedRun(front);
      var name := NameTok(last.name, NoQuant);
      MixedItem(front, last.name);
      RunAppend(r, Items(Mixed, front), [Or, name]);
      RunTwo(Run(r, Items(Mixed, front)), Or, name);
      assert Items(Mixed, children) == Items(Mixed, front) + [Or, name];
      assert front + [last] == children;
    }
  }

  lemma MixedItem(front: seq<Cp>, name: string)
    ensures Step(Step(Reading(if front == [] then AfterPcdata else AfterMixedName, [Frame(Some(Mixed), front)]), Or),
                 NameTok(name, NoQuant)) ==
            Reading(AfterMixedName, [Frame(Some(Mixed), front + [Leaf(name, NoQuant)])])
  {
  }

  lemma DeclarableRuns(cp: Cp)
    requires Declarable(cp)
    ensures Run(Start, Tokens(cp)) == Done(cp)
  {
    hide Run, Items, Inner, Tokens, Declarable;
    if cp.Fixed? {
      RunOne(Start, Keyword(cp.any));
      KeywordsDiffer();
      FixedTokens(cp.any);
    } else {
      DeclarableGroup(cp);
      GroupRuns(cp);
    }
  }

  lemma FixedTokens(any: bool)
    ensures Tokens(Fixed(any)) == [Keyword(any)]
  {
  }

  lemma KeywordsDiffer()
    ensures Keyword(true) != Keyword(false) && Keyword(true) != OpenParen && Keyword(false) != OpenParen
  {
  }

  lemma DeclarableGroup(cp: Cp)
    requires Declarable(cp) && !cp.Fixed?
    ensures cp.Group?
  {
  }

  lemma GroupRuns(cp: Cp)
    requires Declarable(cp) && cp.Group?
    ensures Run(Start, Tokens(cp)) == Done(cp)
  {
    hide Run, Items, Inner;
    var kind, quant, children := cp.kind, cp.quant, cp.children;
    if kind == Mixed {
      RunTwo(Start, OpenParen, Pcdata);
      assert Connect([Frame(None, [])], Mixed) == [Frame(Some(Mixed), [])];
      MixedRun(children);
      RunAppend(Start, [OpenParen, Pcdata], Items(Mixed, children));
      RunAppend(Start, [OpenParen, Pcdata] + Items(Mixed, children), [Close(quant)]);
      RunOne(Reading(if children == [] then AfterPcdata else AfterMixedName, [Frame(Some(Mixed), children)]),
             Close(quant));
      assert [OpenParen] + [Pcdata] + Items(Mixed, children) == [OpenParen, Pcdata] + Items(Mixed, children);
    } else {
      InnerGroup(cp);
      RunOne(Start, OpenParen);
      ItemsRun(First, [], kind, children);
      assert [] + [Frame(None, [])] == [Frame(None, [])];
      assert [] + [Frame(ConnOf(kind, |children|), children)] == [Frame(ConnOf(kind, |children|), children)];
      RunAppend(Start, [OpenParen], Items(kind, children));
      RunAppend(Start, [OpenParen] + Items(kind, children), [Close(quant)]);
      RunOne(Reading(Next, [Frame(ConnOf(kind, |children|), children)]), Close(quant));
      assert [OpenParen] + [] + Items(kind, children) == [OpenParen] + Items(kind, children);
    }
  }

  /** The tokens of a declaration are accepted, with this tree, exactly when they are the tokens of the tree. */
  lemma ReadingIsDeclaring(toks: seq<Token>, cp: Cp)
    ensures Run(Start, toks) == Done(cp) <==> Declarable(cp) && Tokens(cp) == toks
  {
    hide Run, Tokens, Declarable;
    RunReads(Start, [], toks);
    assert [] + toks == toks;
    if Declarable(cp) && Tokens(cp) == toks {
      DeclarableRuns(cp);
    }
  }

  /** The two specifications that are keywords. */
  lemma FixedModels()
    ensures Run(Start, [NameTok("EMPTY", NoQuant)]) == Done(Fixed(false))
    ensures Run(Start, [NameTok("ANY", NoQuant)]) == Done(Fixed(true))
  {
    RunOne(Start, NameTok("EMPTY", NoQuant));
    RunOne(Start, NameTok("ANY", NoQuant));
  }

  /** No two models are declared by the same tokens. */
  lemma ModelsDiffer(a: Cp, b: Cp)
    requires Declarable(a) && Declarable(b) && Tokens(a) == Tokens(b)
    ensures a == b
  {
    hide Run, Tokens, Declarable;
    ReadingIsDeclaring(Tokens(a), a);
    ReadingIsDeclaring(Tokens(a), b);
  }
}
