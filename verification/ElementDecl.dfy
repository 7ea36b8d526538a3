/** Element declarations: the role machine of element types and the building of the scaffold. */
module ElementDecl {
  import opened Common
  import opened ContentModel
  import opened Scaffold
  import opened ModelBuilder

  datatype Handler = Element1 | Element2 | Element3 | Element4 | Element5 | Element6 | Element7 | DeclClose

  datatype Role =
    | RoleNone | RoleError | ContentFixed(any: bool) | ContentPcdata | ContentElement(name: string, quant: Quant)
    | GroupOpen | GroupSequence | GroupChoice | GroupClose(quant: Quant)

  /** groupConnector: 0, a comma or a pipe. */
  datatype Conn = NoConn | CommaConn | PipeConn

  function HandlerOf(phase: Phase): Handler {
    match phase
    case First => Element2
    case AfterPcdata => Element3
    case MixedName => Element4
    case AfterMixedName => Element5
    case Item => Element6
    case Next => Element7
  }

  function Code(conn: Option<Kind>): Conn {
    if conn == Some(Sequence) then CommaConn else if conn == Some(Choice) then PipeConn else NoConn
  }

  /** The cells and the characters that the open groups and their items have used. */
  ghost function StackSize(stack: seq<Frame>): nat {
    if stack == [] then 0
    else StackSize(stack[..|stack| - 1]) + 1 + Sizes(stack[|stack| - 1].children)
  }

  ghost function StackChars(stack: seq<Frame>): nat {
    if stack == [] then 0
    else StackChars(stack[..|stack| - 1]) + CharsAll(stack[|stack| - 1].children)
  }

  lemma StackAdds(stack: seq<Frame>, cp: Cp)
    requires stack != []
    ensures StackSize(AddItem(stack, cp)) == StackSize(stack) + Size(cp)
    ensures StackChars(AddItem(stack, cp)) == StackChars(stack) + Chars(cp)
  {
  }

  lemma StackOpens(stack: seq<Frame>)
    ensures StackSize(stack + [Frame(None, [])]) == StackSize(stack) + 1
    ensures StackChars(stack + [Frame(None, [])]) == StackChars(stack)
  {
  }

  lemma StackConnects(stack: seq<Frame>, kind: Kind)
    requires stack != []
    ensures StackSize(Connect(stack, kind)) == StackSize(stack)
    ensures StackChars(Connect(stack, kind)) == StackChars(stack)
  {
  }

  lemma StackCloses(stack: seq<Frame>, quant: Quant)
    requires stack != []
    ensures var top, below := stack[|stack| - 1], stack[..|stack| - 1];
            var cp := Group(KindOf(top.conn), quant, top.children);
            && (below != [] ==> StackSize(AddItem(below, cp)) == StackSize(stack)
                                && StackChars(AddItem(below, cp)) == StackChars(stack))
            && (below == [] ==> Size(cp) == StackSize(stack) && Chars(cp) == StackChars(stack))
  {
    hide Sizes, CharsAll;
    var top, below := stack[|stack| - 1], stack[..|stack| - 1];
    if below != [] {
      StackAdds(below, Group(KindOf(top.conn), quant, top.children));
    }
  }

  /** The parts of the parser, its DTD and its prolog state that element declarations use. */
  class ElementParser {
    var handler: Handler
    var level: nat
    var groupConnector: array<Conn>
    var scaffold: array<Cell>
    var scaffCount: nat
    var scaffLevel: nat
    var scaffIndex: array<nat>
    var contentStringLen: nat
    ghost var sh: seq<Shadow>
    ghost var reader: Reader

    ghost function Cells(): seq<Cell>
      requires scaffCount <= scaffold.Length
      reads this`scaffold, this`scaffCount, scaffold
    {
      scaffold[..scaffCount]
    }

    ghost function Index(): seq<nat>
      requires scaffLevel <= scaffIndex.Length
      reads this`scaffIndex, this`scaffLevel, scaffIndex
    {
      scaffIndex[..scaffLevel]
    }

    /** The scaffold of these open groups. */
    ghost predicate Scaffolded(stack: seq<Frame>)
      reads this`scaffold, this`scaffCount, this`scaffLevel, this`scaffIndex, this`contentStringLen, this`sh
      reads this`groupConnector, scaffold, scaffIndex
    {
      && scaffCount <= scaffold.Length && scaffLevel == |stack| <= scaffIndex.Length
      && Shape(Cells(), sh, Index(), stack)
      && scaffCount == StackSize(stack) && contentStringLen == StackChars(stack)
      && (scaffIndex.Length == 0 || scaffIndex.Length == groupConnector.Length)
    }

    /** The connectors seen in these open groups. */
    ghost predicate Connectors(stack: seq<Frame>)
      reads this`groupConnector, groupConnector
    {
      && (stack != [] ==> |stack| < groupConnector.Length)
      && forall l :: 0 <= l < |stack| ==> groupConnector[l + 1] == Code(stack[l].conn)
    }

    ghost predicate Valid()
      reads this, scaffold, scaffIndex, groupConnector
    {
      match reader
      case Start => handler == Element1 && Scaffolded([]) && Connectors([]) && sh == [] && contentStringLen == 0
      case Reading(phase, stack) =>
        handler == HandlerOf(phase) && level == |stack| && StackOk(phase, stack) && Scaffolded(stack) && Connectors(stack)
      case Done(cp) => handler == DeclClose && contentStringLen == 0
      case Refused => true
    }

    constructor ()
      ensures Valid() && reader == Start
    {
      handler, level := Element1, 0;
      groupConnector := new Conn[0];
      scaffold := new Cell[0];
      scaffIndex := new nat[0];
      scaffCount, scaffLevel, contentStringLen := 0, 0, 0;
      sh, reader := [], Start;
    }

    /** XML_ROLE_ELEMENT_NAME: a new declaration uses the scaffold anew. */
    method Begin()
      requires scaffIndex.Length == 0 || scaffIndex.Length == groupConnector.Length
      requires contentStringLen == 0
      modifies this
      ensures Valid() && reader == Start
    {
      handler := Element1;
      scaffLevel, scaffCount := 0, 0;
      sh, reader := [], Start;
    }

    /** Room for one more cell, in an array of twice the size if there is none. */
    method GrowScaffold()
      requires scaffCount <= scaffold.Length
      modifies this`scaffold
      ensures scaffCount < scaffold.Length && Cells() == old(Cells())
      ensures scaffold == old(scaffold) || fresh(scaffold)
    {
      if scaffCount >= scaffold.Length {
        var size := if scaffold.Length == 0 then 32 else scaffold.Length * 2;
        var temp, cells := new Cell[size], scaffold;
        for k := 0 to scaffCount
          invariant scaffold == cells && temp[..k] == cells[..k]
        {
          temp[k] := cells[k];
        }
        scaffold := temp;
      }
    }

    /** nextScaffoldPart */
    method NextScaffoldPart() returns (next: nat)
      requires scaffCount <= scaffold.Length && scaffLevel <= scaffIndex.Length
      requires scaffIndex.Length == 0 || scaffIndex.Length == groupConnector.Length
      requires scaffLevel > 0 ==> Index()[scaffLevel - 1] < scaffCount && Cells()[Index()[scaffLevel - 1]].last < scaffCount
      modifies this`scaffold, this`scaffIndex, this`scaffCount, scaffold
      ensures next == old(scaffCount) && scaffCount == next + 1 <= scaffold.Length
      ensures scaffIndex.Length == groupConnector.Length && scaffLevel <= scaffIndex.Length && Index() == old(Index())
      ensures scaffIndex == old(scaffIndex) || fresh(scaffIndex)
      ensures scaffold == old(scaffold) || fresh(scaffold)
      ensures NoLinks(scaffold[next])
      ensures scaffold[..next] == if scaffLevel > 0 then Adopted(old(Cells()), Index()[scaffLevel - 1]) else old(Cells())
    {
      hide Adopted;
      if scaffIndex.Length == 0 {
        scaffIndex := new nat[groupConnector.Length];
      }
      GrowScaffold();
      next := scaffCount;
      scaffCount := next + 1;
      if scaffLevel > 0 {
        var p := scaffIndex[scaffLevel - 1];
        assert old(Index())[scaffLevel - 1] == p && old(Cells())[p] == scaffold[p];
        Adopt(p, next);
      }
      scaffold[next] := scaffold[next].(first := 0, last := 0, count := 0, next := 0);
    }

    /** The links from the last sibling and from the parent to a new cell. */
    method Adopt(p: nat, next: nat)
      requires p < next <= scaffold.Length && scaffold[p].last < next
      modifies scaffold
      ensures scaffold[..next] == Adopted(old(scaffold[..next]), p)
    {
      var parent := scaffold[p];
      if parent.last != 0 {
        scaffold[parent.last] := scaffold[parent.last].(next := next);
      }
      if parent.count == 0 {
        scaffold[p] := scaffold[p].(first := next);
      }
      scaffold[p] := scaffold[p].(last := next, count := scaffold[p].count + 1);
    }

    /** Room for one more level in the arrays that are indexed by level. */
    method GrowGroups(ghost stack: seq<Frame>)
      requires Scaffolded(stack) && Connectors(stack) && level == |stack| + 1
      modifies this`groupConnector, this`scaffIndex
      ensures Scaffolded(stack) && Connectors(stack) && level < groupConnector.Length
      ensures scaffIndex == old(scaffIndex) || fresh(scaffIndex)
      ensures groupConnector == old(groupConnector) || fresh(groupConnector)
    {
      hide Shape, StackSize, StackChars, Code;
      if level >= groupConnector.Length {
        if groupConnector.Length > 0 {
          var temp := Larger(groupConnector, NoConn);
          SameConnectors(groupConnector[..], temp[..], stack);
          groupConnector := temp;
          if scaffIndex.Length > 0 {
            ghost var index := scaffIndex;
            scaffIndex := Larger(scaffIndex, 0);
            assert scaffIndex[..scaffLevel] == index[..][..scaffLevel];
          }
        } else {
          groupConnector := new Conn[32];
        }
      }
    }

    /** An array of twice the size, with the same elements in front. */
    static method Larger<T>(a: array<T>, filler: T) returns (b: array<T>)
      ensures fresh(b) && b.Length == 2 * a.Length && b[..a.Length] == a[..]
    {
      b := new T[2 * a.Length](_ => filler);
      for k := 0 to a.Length
        invariant b[..k] == a[..k]
      {
        b[k] := a[k];
      }
    }

    /** XML_ROLE_GROUP_OPEN */
    method OpenGroup(ghost stack: seq<Frame>)
      requires Scaffolded(stack) && Connectors(stack) && level == |stack| + 1 && (stack == [] ==> sh == [])
      modifies this, scaffold, scaffIndex, groupConnector
      ensures Scaffolded(stack + [Frame(None, [])]) && Connectors(stack + [Frame(None, [])])
      ensures scaffold == old(scaffold) || fresh(scaffold)
      ensures scaffIndex == old(scaffIndex) || fresh(scaffIndex)
      ensures groupConnector == old(groupConnector) || fresh(groupConnector)
      ensures handler == old(handler) && level == old(level) && reader == old(reader)
    {
      hide Shape, StackSize, StackChars;
      GrowGroups(stack);
      groupConnector[level] := NoConn;
      AddGroupCell(stack);
    }

    /** A new cell for a group, which becomes the innermost one. */
    method TakeGroupCell() returns (ghost c: Cell)
      requires scaffCount <= scaffold.Length && scaffLevel <= scaffIndex.Length
      requires scaffIndex.Length == 0 || scaffIndex.Length == groupConnector.Length
      requires scaffLevel > 0 ==> Index()[scaffLevel - 1] < scaffCount && Cells()[Index()[scaffLevel - 1]].last < scaffCount
      requires scaffLevel < groupConnector.Length
      modifies this`scaffold, this`scaffIndex, this`scaffCount, this`scaffLevel, scaffold, scaffIndex
      ensures scaffCount == old(scaffCount) + 1 <= scaffold.Length && scaffLevel == old(scaffLevel) + 1
      ensures scaffLevel <= scaffIndex.Length == groupConnector.Length && Index() == old(Index()) + [old(scaffCount)]
      ensures Cells() == (if scaffLevel > 1 then Adopted(old(Cells()), old(Index())[old(scaffLevel) - 1])
                          else old(Cells())) + [c]
      ensures NoLinks(c) && c.kind == SeqCell
      ensures scaffold == old(scaffold) || fresh(scaffold)
      ensures scaffIndex == old(scaffIndex) || fresh(scaffIndex)
    {
      hide Adopted;
      var myindex := NextScaffoldPart();
      scaffIndex[scaffLevel] := myindex;
      scaffLevel := scaffLevel + 1;
      scaffold[myindex] := scaffold[myindex].(kind := SeqCell);
      c := scaffold[myindex];
    }

    method AddGroupCell(ghost stack: seq<Frame>)
      requires Scaffolded(stack) && |stack| < groupConnector.Length && (stack == [] ==> sh == [])
      modifies this`scaffold, this`scaffIndex, this`scaffCount, this`scaffLevel, this`sh, scaffold, scaffIndex
      ensures Scaffolded(stack + [Frame(None, [])])
      ensures scaffold == old(scaffold) || fresh(scaffold)
      ensures scaffIndex == old(scaffIndex) || fresh(scaffIndex)
    {
      hide Shape, StackSize, StackChars, Adopted, Adopting, NoLinks;
      ghost var cells, index := Cells(), Index();
      StackOpens(stack);
      if scaffLevel == 0 {
        NoCells(cells, sh, index);
        ghost var c: Cell;
        c := TakeGroupCell();
        RootAdded(c);
        assert Cells() == [c] && stack + [Frame(None, [])] == [Frame(None, [])];
        sh := [Shadow([], 0, None)];
        assert Index() == [0];
      } else {
        LastFits(cells, sh, index, stack);
        ghost var c: Cell;
        c := TakeGroupCell();
        GroupAdded(cells, sh, index, stack, c);
        sh := Adopting(sh, index[|index| - 1], None);
      }
    }

    /** XML_ROLE_CONTENT_ELEMENT and its quantified forms. */
    method AddElement(name: string, quant: Quant, ghost stack: seq<Frame>)
      requires Scaffolded(stack) && Connectors(stack) && stack != []
      modifies this, scaffold
      ensures Scaffolded(AddItem(stack, Leaf(name, quant))) && Connectors(AddItem(stack, Leaf(name, quant)))
      ensures handler == old(handler) && level == old(level) && reader == old(reader)
      ensures groupConnector == old(groupConnector)
      ensures scaffold == old(scaffold) || fresh(scaffold)
      ensures scaffIndex == old(scaffIndex) || fresh(scaffIndex)
    {
      hide Shape, StackSize, StackChars, Adopted, Adopting, NoLinks;
      ghost var cells, index := Cells(), Index();
      LastFits(cells, sh, index, stack);
      ghost var c: Cell;
      c := TakeNameCell(name, quant);
      contentStringLen := contentStringLen + |name| + 1;
      NameAdded(cells, sh, index, stack, c);
      StackAdds(stack, Leaf(name, quant));
      sh := Adopting(sh, index[|index| - 1], Some(Leaf(name, quant)));
    }

    /** A new cell for a name in the innermost group. */
    method TakeNameCell(name: string, quant: Quant) returns (ghost c: Cell)
      requires scaffCount <= scaffold.Length && 0 < scaffLevel <= scaffIndex.Length
      requires scaffIndex.Length == groupConnector.Length
      requires Index()[scaffLevel - 1] < scaffCount && Cells()[Index()[scaffLevel - 1]].last < scaffCount
      modifies this`scaffold, this`scaffIndex, this`scaffCount, scaffold
      ensures scaffCount == old(scaffCount) + 1 <= scaffold.Length
      ensures scaffLevel <= scaffIndex.Length == groupConnector.Length && Index() == old(Index())
      ensures Cells() == Adopted(old(Cells()), old(Index())[scaffLevel - 1]) + [c]
      ensures NoLinks(c) && c.kind == NameCell && c.name == name && c.quant == quant
      ensures scaffold == old(scaffold) || fresh(scaffold)
      ensures scaffIndex == old(scaffIndex) || fresh(scaffIndex)
    {
      hide Adopted;
      var myindex := NextScaffoldPart();
      scaffold[myindex] := scaffold[myindex].(kind := NameCell, quant := quant, name := name);
      c := scaffold[myindex];
    }

    /** The type of the innermost group. */
    method SetType(cell: CellType, ghost kind: Kind, ghost stack: seq<Frame>)
      requires Scaffolded(stack) && stack != [] && cell == CellOf(kind)
      modifies scaffold
      ensures Scaffolded(Connect(stack, kind))
    {
      hide Shape, StackSize, StackChars;
      ghost var cells := Cells();
      Typed(cells, sh, Index(), stack, kind);
      StackConnects(stack, kind);
      var p := scaffIndex[scaffLevel - 1];
      assert cells[p] == scaffold[p];
      scaffold[p] := scaffold[p].(kind := cell);
      assert Cells() == cells[p := cells[p].(kind := cell)];
    }

    /** XML_ROLE_GROUP_SEQUENCE */
    method SequenceConnector(ghost stack: seq<Frame>) returns (ok: bool)
      requires Scaffolded(stack) && Connectors(stack) && stack != [] && level == |stack|
      requires stack[|stack| - 1].conn != Some(Mixed)
      modifies groupConnector, scaffold
      ensures ok <==> stack[|stack| - 1].conn != Some(Choice)
      ensures ok ==> Scaffolded(Connect(stack, Sequence)) && Connectors(Connect(stack, Sequence))
    {
      hide Shape, StackSize, StackChars;
      if groupConnector[level] == PipeConn {
        return false;
      }
      groupConnector[level] := CommaConn;
      SequenceType(stack);
      ok := true;
    }

    /** A comma leaves the type of the group as it is. */
    lemma SequenceType(stack: seq<Frame>)
      requires Scaffolded(stack) && stack != [] && KindOf(stack[|stack| - 1].conn) == Sequence
      ensures Scaffolded(Connect(stack, Sequence))
    {
      hide StackSize, StackChars;
      StackConnects(stack, Sequence);
      Typed(Cells(), sh, Index(), stack, Sequence);
      var p := Index()[|Index()| - 1];
      assert OpenAt(Cells(), sh, Index(), stack, |Index()| - 1);
      assert Cells()[p := Cells()[p].(kind := SeqCell)] == Cells();
    }

    /** XML_ROLE_GROUP_CHOICE */
    method ChoiceConnector(ghost stack: seq<Frame>) returns (ok: bool)
      requires Scaffolded(stack) && Connectors(stack) && stack != [] && level == |stack|
      requires stack[|stack| - 1].conn != Some(Mixed)
      modifies groupConnector, scaffold
      ensures ok <==> stack[|stack| - 1].conn != Some(Sequence)
      ensures ok ==> Scaffolded(Connect(stack, Choice)) && Connectors(Connect(stack, Choice))
    {
      hide Shape, StackSize, StackChars;
      if groupConnector[level] == CommaConn {
        return false;
      }
      InnerType(stack);
      if groupConnector[level] == NoConn && scaffold[scaffIndex[scaffLevel - 1]].kind != MixedCell {
        SetType(ChoiceCell, Choice, stack);
      } else {
        assert Connect(stack, Choice) == stack;
      }
      groupConnector[level] := PipeConn;
      ok := true;
    }

    /** The cell of the innermost group has the type that its connectors say. */
    lemma InnerType(stack: seq<Frame>)
      requires Scaffolded(stack) && stack != []
      ensures var p := scaffIndex[scaffLevel - 1];
              p < scaffCount && scaffold[p].kind == CellOf(KindOf(stack[|stack| - 1].conn))
    {
      hide StackSize, StackChars;
      assert OpenAt(Cells(), sh, Index(), stack, |stack| - 1);
      assert Cells()[Index()[|stack| - 1]] == scaffold[scaffIndex[scaffLevel - 1]];
    }

    /** XML_ROLE_GROUP_CLOSE and its quantified forms; the model is built when the outermost group closes. */
    method CloseGroup(quant: Quant, ghost stack: seq<Frame>) returns (out: array?<Content>, str: array?<char>)
      requires Scaffolded(stack) && stack != []
      modifies this`scaffLevel, this`contentStringLen, this`sh, scaffold
      ensures match CloseTop(stack, quant)
              case Reading(_, below) => Scaffolded(below) && out == null
              case Done(cp) =>
                && contentStringLen == 0 && out != null && str != null
                && IsModel(out[..], str[..], cp)
              case _ => false
    {
      hide Shape, StackSize, StackChars, Closed, Size, Chars, ModelBuilder.Holds;
      ghost var cells, index, top, below := Cells(), Index(), stack[|stack| - 1], stack[..|stack| - 1];
      ghost var cp := Group(KindOf(top.conn), quant, top.children);
      GroupClosed(cells, sh, index, stack, quant);
      GroupReady(cells, sh, index, stack, quant);
      StackCloses(stack, quant);
      out, str := null, null;
      scaffLevel := scaffLevel - 1;
      var p := scaffIndex[scaffLevel];
      assert cells[p] == scaffold[p] && index[|index| - 1] == p;
      scaffold[p] := scaffold[p].(quant := quant);
      assert Cells() == cells[p := cells[p].(quant := quant)];
      assert Index() == index[..|index| - 1];
      sh := Closed(sh, p, cp);
      if scaffLevel == 0 {
        out, str := BuildModel(scaffold[..scaffCount], contentStringLen, sh, cp);
        contentStringLen := 0;
      }
    }

    /** element1 to element7 and declClose, on the tokens of a content specification. */
    method ElementRole(tok: Token) returns (role: Role)
      requires Placed(reader, handler, level)
      modifies this`handler, this`level
      ensures Answers(reader, tok, role, handler, level)
    {
      hide StackOk, AddItem, Connect, CloseTop;
      StackFacts(reader);
      KeywordsDiffer();
      match handler {
        case Element1 =>
          if tok == Keyword(false) || tok == Keyword(true) {
            handler := DeclClose;
            return ContentFixed(tok == Keyword(true));
          } else if tok == OpenParen {
            handler, level := Element2, 1;
            return GroupOpen;
          }
        case Element2 =>
          if tok == Pcdata {
            handler := Element3;
            return ContentPcdata;
          } else if tok == OpenParen {
            handler, level := Element6, 2;
            return GroupOpen;
          } else if tok.NameTok? {
            handler := Element7;
            return ContentElement(tok.name, tok.quant);
          }
        case Element3 | Element4 | Element5 =>
          role := MixedRole(tok);
          return;
        case Element6 | Element7 =>
          role := GroupRole(tok);
          return;
        case DeclClose =>
      }
      role := RoleError;
    }

    /** element3, element4 and element5: mixed content. */
    method MixedRole(tok: Token) returns (role: Role)
      requires Placed(reader, handler, level) && (handler == Element3 || handler == Element4 || handler == Element5)
      modifies this`handler, this`level
      ensures Answers(reader, tok, role, handler, level)
    {
      hide StackOk, AddItem, Connect, CloseTop, Keyword;
      StackFacts(reader);
      match handler {
        case Element3 =>
          if tok == Close(NoQuant) || tok == Close(Rep) {
            handler := DeclClose;
            return GroupClose(tok.quant);
          } else if tok == Or {
            handler := Element4;
            return RoleNone;
          }
        case Element4 =>
          if tok.NameTok? && tok.quant == NoQuant {
            handler := Element5;
            return ContentElement(tok.name, NoQuant);
          }
        case Element5 =>
          if tok == Close(Rep) {
            handler := DeclClose;
            return GroupClose(Rep);
          } else if tok == Or {
            handler := Element4;
            return RoleNone;
          }
        case _ =>
      }
      role := RoleError;
    }

    /** element6 and element7: inside a group. */
    method GroupRole(tok: Token) returns (role: Role)
      requires Placed(reader, handler, level) && (handler == Element6 || handler == Element7)
      modifies this`handler, this`level
      ensures Answers(reader, tok, role, handler, level)
    {
      hide StackOk, AddItem, Connect, CloseTop, Keyword;
      StackFacts(reader);
      match handler {
        case Element6 =>
          if tok == OpenParen {
            level := level + 1;
            return GroupOpen;
          } else if tok.NameTok? {
            handler := Element7;
            return ContentElement(tok.name, tok.quant);
          }
        case Element7 =>
          if tok.Close? {
            level := level - 1;
            if level == 0 {
              handler := DeclClose;
            }
            return GroupClose(tok.quant);
          } else if tok == Comma {
            handler := Element6;
            return GroupSequence;
          } else if tok == Or {
            handler := Element6;
            return GroupChoice;
          }
        case _ =>
      }
      role := RoleError;
    }

    /** One token: the role machine, and then what doProlog does for the role. */
    method Read(tok: Token) returns (error: bool, out: array?<Content>, str: array?<char>)
      requires Valid() && (reader.Start? || reader.Reading?)
      modifies this, scaffold, scaffIndex, groupConnector
      ensures Valid() && reader == Step(old(reader), tok) && (error <==> reader.Refused?)
      ensures reader.Done? ==> out != null && str != null && IsModel(out[..], str[..], reader.cp)
      ensures out != null <==> reader.Done?
      ensures scaffold == old(scaffold) || fresh(scaffold)
      ensures scaffIndex == old(scaffIndex) || fresh(scaffIndex)
      ensures groupConnector == old(groupConnector) || fresh(groupConnector)
    {
      hide Step, Shape, Scaffolded, Connectors, StackOk, AddItem, Connect, CloseTop, StackSize, StackChars, IsModel;
      error, out, str := false, null, null;
      ghost var r := reader;
      ghost var stack := if r.Start? then [] else r.stack;
      StepOk(r, tok);
      StackFacts(r);
      ConnectorSteps(stack);
      var role := ElementRole(tok);
      reader := Step(r, tok);
      match role
      case RoleError => error := true;
      case RoleNone =>
      case ContentFixed(any) => out, str := FixedModel(any);
      case ContentPcdata => SetMixed(stack);
      case ContentElement(name, quant) => AddElement(name, quant, stack);
      case GroupOpen => OpenGroup(stack);
      case GroupSequence =>
        var ok := SequenceConnector(stack);
        error := !ok;
      case GroupChoice =>
        var ok := ChoiceConnector(stack);
        error := !ok;
      case GroupClose(quant) =>
        ConnectorsBelow(stack, quant);
        out, str := CloseGroup(quant, stack);
    }

    lemma ConnectorsBelow(stack: seq<Frame>, quant: Quant)
      requires Connectors(stack) && stack != []
      ensures var r := CloseTop(stack, quant);
              && !r.Refused? && !r.Start? && (r.Reading? ==> Connectors(r.stack) && r.phase == Next)
              && (r.Reading? <==> |stack| > 1) && (r.Reading? ==> |r.stack| == |stack| - 1)
    {
    }

    /** XML_ROLE_CONTENT_PCDATA */
    method SetMixed(ghost stack: seq<Frame>)
      requires Scaffolded(stack) && Connectors(stack) && stack == [Frame(None, [])]
      modifies scaffold
      ensures Scaffolded(Connect(stack, Mixed)) && Connectors(Connect(stack, Mixed))
    {
      hide Shape, StackSize, StackChars;
      SetType(MixedCell, Mixed, stack);
    }

    /** XML_ROLE_CONTENT_ANY and XML_ROLE_CONTENT_EMPTY: a model of one cell. */
    method FixedModel(any: bool) returns (out: array<Content>, str: array<char>)
      ensures fresh(out) && fresh(str) && IsModel(out[..], str[..], Fixed(any))
    {
      out := new Content[1];
      out[0] := Content(if any then AnyCell else EmptyCell, NoQuant, None, 0, 0);
      str := new char[0];
    }
  }

  lemma SameConnectors(a: seq<Conn>, b: seq<Conn>, stack: seq<Frame>)
    requires |a| <= |b| && a == b[..|a|]
    ensures forall k :: 0 <= k < |a| ==> a[k] == b[k]
  {
  }

  lemma NoCells(cells: seq<Cell>, sh: seq<Shadow>, index: seq<nat>)
    requires Shape(cells, sh, index, []) && sh == []
    ensures cells == [] && index == []
  {
  }

  /** When the outermost group is closed, its cell is complete. */
  lemma GroupReady(cells: seq<Cell>, sh: seq<Shadow>, index: seq<nat>, stack: seq<Frame>, quant: Quant)
    requires Shape(cells, sh, index, stack) && index != []
    ensures var p, top := index[|index| - 1], stack[|stack| - 1];
            var cp := Group(KindOf(top.conn), quant, top.children);
            && p < |cells| == |sh| && (|stack| == 1 ==> p == 0)
            && (|stack| == 1 ==> Ready(cells[p := cells[p].(quant := quant)], Closed(sh, p, cp), 0, cp))
  {
    hide Linked, Complete, OpenAt;
    LastFits(cells, sh, index, stack);
    GroupClosed(cells, sh, index, stack, quant);
  }

  /** The block of cells and the block of characters of a model, each used in full. */
  ghost predicate IsModel(out: seq<Content>, str: seq<char>, cp: Cp) {
    && |out| == Size(cp) && |str| == Chars(cp)
    && ModelBuilder.Holds(out, str, 0, cp, 1, |out|, 0, |str|)
  }

  /** Where the role machine stands in a reading. */
  ghost predicate Placed(r: Reader, handler: Handler, level: nat) {
    match r
    case Start => handler == Element1
    case Reading(phase, stack) => handler == HandlerOf(phase) && level == |stack| && StackOk(phase, stack)
    case _ => false
  }

  /** What a role tells about the token, and where the machine stands then. */
  ghost predicate Answers(r: Reader, tok: Token, role: Role, handler: Handler, level: nat) {
    var next := Step(r, tok);
    match role
    case RoleError => next.Refused?
    case RoleNone => r.Reading? && next == Reading(MixedName, r.stack) && handler == Element4 && level == |r.stack|
    case ContentFixed(any) => r.Start? && next == Done(Fixed(any)) && handler == DeclClose
    case ContentPcdata =>
      r.Reading? && r.phase == First && r.stack != [] && next == Reading(AfterPcdata, Connect(r.stack, Mixed))
      && handler == Element3 && level == |r.stack|
    case ContentElement(name, quant) =>
      r.Reading? && r.stack != [] && next.Reading? && next.stack == AddItem(r.stack, Leaf(name, quant))
      && handler == HandlerOf(next.phase) && level == |r.stack|
    case GroupOpen =>
      var stack := if r.Reading? then r.stack else [];
      (r.Start? || r.Reading?) && next.Reading? && next.stack == stack + [Frame(None, [])]
      && handler == HandlerOf(next.phase) && level == |stack| + 1
    case GroupSequence =>
      r.Reading? && r.phase == Next && tok == Comma && handler == Element6 && level == |r.stack|
    case GroupChoice =>
      r.Reading? && r.phase == Next && tok == Or && handler == Element6 && level == |r.stack|
    case GroupClose(quant) =>
      r.Reading? && r.stack != [] && next == CloseTop(r.stack, quant)
      && handler == (if |r.stack| == 1 then DeclClose else Element7) && (|r.stack| > 1 ==> level == |r.stack| - 1)
  }

  /** A step keeps the groups in order. */
  lemma StepOk(r: Reader, tok: Token)
    requires r.Start? || (r.Reading? && StackOk(r.phase, r.stack))
    ensures var next := Step(r, tok); next.Reading? ==> StackOk(next.phase, next.stack)
    ensures !Step(r, tok).Start?
  {
    hide Step, StackOk, Text, Tokens, Items;
    StepReads(r, tok, if r.Reading? then Text(r.stack, Awaits(r.phase)) else []);
    NeverStart(r, tok);
  }

  lemma ConnectorSteps(stack: seq<Frame>)
    ensures stack != [] ==>
              && Step(Reading(Next, stack), Comma) ==
                 (if stack[|stack| - 1].conn == Some(Choice) then Refused else Reading(Item, Connect(stack, Sequence)))
              && Step(Reading(Next, stack), Or) ==
                 (if stack[|stack| - 1].conn == Some(Sequence) then Refused else Reading(Item, Connect(stack, Choice)))
  {
  }

  lemma NeverStart(r: Reader, tok: Token)
    ensures !Step(r, tok).Start?
  {
  }

  lemma StackFacts(r: Reader)
    requires r.Start? || (r.Reading? && StackOk(r.phase, r.stack))
    ensures r.Reading? ==> r.stack != []
    ensures r.Reading? && (r.phase == AfterPcdata || r.phase == AfterMixedName) ==> |r.stack| == 1
    ensures r.Reading? && r.phase == Next ==> r.stack[|r.stack| - 1].conn != Some(Mixed)
    ensures r.Reading? && r.phase == First ==> r.stack == [Frame(None, [])]
  {
  }

  /** The content specification of one element declaration, up to the end of the declaration. */
  method ParseContentSpec(p: ElementParser, toks: seq<Token>)
    returns (error: bool, out: array?<Content>, str: array?<char>, ghost cp: Cp)
    requires p.Valid() && p.reader == Start
    modifies p, p.scaffold, p.scaffIndex, p.groupConnector
    ensures error <==> Run(Start, toks).Refused?
    ensures out != null <==> !error && Run(Start, toks).Done?
    ensures out != null ==> str != null && IsModel(out[..], str[..], cp) && Declarable(cp) && Tokens(cp) == toks
    ensures forall d :: Declarable(d) && Tokens(d) == toks ==> out != null && cp == d
  {
    hide Step, IsModel, Tokens, Declarable;
    error, out, str := false, null, null;
    cp := Fixed(false);
    assert toks[0..] == toks;
    AllReadings(toks);
    for k := 0 to |toks|
      invariant p.Valid() && Run(p.reader, toks[k..]) == Run(Start, toks)
      invariant !p.reader.Refused? && !error
      invariant out != null <==> p.reader.Done?
      invariant out != null ==> str != null && IsModel(out[..], str[..], cp) && p.reader == Done(cp)
      invariant p.scaffold == old(p.scaffold) || fresh(p.scaffold)
      invariant p.scaffIndex == old(p.scaffIndex) || fresh(p.scaffIndex)
      invariant p.groupConnector == old(p.groupConnector) || fresh(p.groupConnector)
    {
      assert toks[k..][1..] == toks[k + 1..];
      if p.handler == DeclClose {
        DoneRefuses(p.reader, toks[k]);
        RefusedStays(toks[k..][1..]);
        return true, null, null, cp;
      }
      error, out, str := p.Read(toks[k]);
      if error {
        RefusedStays(toks[k + 1..]);
        return;
      }
      if out != null {
        cp := p.reader.cp;
      }
    }
  }

  lemma DoneRefuses(r: Reader, tok: Token)
    ensures r.Done? ==> Step(r, tok) == Refused
  {
  }

  lemma AllReadings(toks: seq<Token>)
    ensures forall d :: Run(Start, toks) == Done(d) <==> Declarable(d) && Tokens(d) == toks
  {
    hide Run, Declarable, Tokens;
    forall d ensures Run(Start, toks) == Done(d) <==> Declarable(d) && Tokens(d) == toks {
      ReadingIsDeclaring(toks, d);
    }
  }

  lemma {:induction false} RefusedStays(toks: seq<Token>)
    ensures Run(Refused, toks) == Refused
    decreases |toks|
  {
    if toks != [] {
      RefusedStays(toks[1..]);
    }
  }
}
