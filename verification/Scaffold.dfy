/** The scaffold of a content model: cells linked by first child, last child and next sibling. */
module Scaffold {
  import opened Common
  import opened ContentModel

  datatype CellType = NameCell | MixedCell | ChoiceCell | SeqCell | EmptyCell | AnyCell

  /** CONTENT_SCAFFOLD; 0 stands for no cell, since the cell 0 is nobody's child. */
  datatype Cell = Cell(kind: CellType, quant: Quant, name: string, first: nat, last: nat, count: nat, next: nat)

  /** What a cell stands for: its children in order, its parent, and its tree once it is complete. */
  datatype Shadow = Shadow(kids: seq<nat>, parent: nat, tree: Option<Cp>)

  function CellOf(kind: Kind): CellType {
    match kind
    case Mixed => MixedCell
    case Choice => ChoiceCell
    case Sequence => SeqCell
  }

  ghost function FirstOf(kids: seq<nat>): nat {
    if kids == [] then 0 else kids[0]
  }

  ghost function LastOf(kids: seq<nat>): nat {
    if kids == [] then 0 else kids[|kids| - 1]
  }

  ghost function After(kids: seq<nat>, k: nat): nat {
    if k + 1 < |kids| then kids[k + 1] else 0
  }

  /** The links of a cell are those of its list of children. */
  ghost predicate Linked(cells: seq<Cell>, sh: seq<Shadow>, i: nat)
    requires i < |cells| == |sh|
  {
    var c, kids := cells[i], sh[i].kids;
    && c.count == |kids| && c.first == FirstOf(kids) && c.last == LastOf(kids)
    && (forall k :: 0 <= k < |kids| ==> Child(cells, sh, i, kids[k]) && cells[kids[k]].next == After(kids, k))
    && (forall k, l :: 0 <= k < l < |kids| ==> kids[k] < kids[l])
  }

  ghost predicate Child(cells: seq<Cell>, sh: seq<Shadow>, i: nat, c: nat)
    requires |cells| == |sh|
  {
    i < c < |cells| && sh[c].parent == i
  }

  /** A complete cell holds its tree. */
  ghost predicate Complete(c: Cell, sh: seq<Shadow>, kids: seq<nat>, tree: Cp) {
    match tree
    case Fixed(_) => false
    case Leaf(name, quant) => c.kind == NameCell && c.quant == quant && c.name == name && kids == []
    case Group(kind, quant, children) =>
      c.kind == CellOf(kind) && c.quant == quant && |kids| == |children| && AreTrees(sh, kids, children)
  }

  /** The first kids are complete, with these trees. */
  ghost predicate AreTrees(sh: seq<Shadow>, kids: seq<nat>, children: seq<Cp>) {
    |children| <= |kids| && forall k :: 0 <= k < |children| ==> kids[k] < |sh| && sh[kids[k]].tree == Some(children[k])
  }

  /** An open group: complete children, and then perhaps the open group inside it. */
  ghost predicate Open(c: Cell, sh: seq<Shadow>, s: Shadow, f: Frame, inner: seq<nat>) {
    && s.tree.None? && c.kind == CellOf(KindOf(f.conn))
    && |s.kids| == |f.children| + |inner| && AreTrees(sh, s.kids, f.children)
    && s.kids[|f.children|..] == inner
  }

  ghost predicate OpenAt(cells: seq<Cell>, sh: seq<Shadow>, index: seq<nat>, stack: seq<Frame>, l: nat)
    requires l < |index| == |stack| && |cells| == |sh|
  {
    && index[l] < |cells|
    && Open(cells[index[l]], sh, sh[index[l]], stack[l], if l + 1 < |index| then [index[l + 1]] else [])
  }

  /** The cells of a stack of open groups, index giving the cell of each. */
  ghost predicate Shape(cells: seq<Cell>, sh: seq<Shadow>, index: seq<nat>, stack: seq<Frame>) {
    && |cells| == |sh| && |index| == |stack|
    && (forall i :: 0 <= i < |cells| ==> Linked(cells, sh, i))
    && (forall i :: 0 <= i < |cells| && sh[i].tree.Some? ==> Complete(cells[i], sh, sh[i].kids, sh[i].tree.value))
    && (forall l :: 0 <= l < |index| ==> OpenAt(cells, sh, index, stack, l))
    && (forall k, l :: 0 <= k < l < |index| ==> index[k] < index[l])
    && (index != [] ==> index[0] == 0)
  }

  // ----- a new child

  /** The changes of nextScaffoldPart to the last sibling and to the parent p, next being the new cell. */
  ghost function Adopted(cells: seq<Cell>, p: nat): (r: seq<Cell>)
    requires p < |cells| && cells[p].last < |cells|
    ensures |r| == |cells|
  {
    var next := |cells|;
    var cs := if cells[p].last != 0 then cells[cells[p].last := cells[cells[p].last].(next := next)] else cells;
    cs[p := cs[p].(first := if cells[p].count == 0 then next else cells[p].first, last := next,
                    count := cells[p].count + 1)]
  }

  ghost function Adopting(sh: seq<Shadow>, p: nat, tree: Option<Cp>): seq<Shadow>
    requires p < |sh|
  {
    sh[p := sh[p].(kids := sh[p].kids + [|sh|])] + [Shadow([], p, tree)]
  }

  lemma AdoptedAt(cells: seq<Cell>, sh: seq<Shadow>, p: nat, i: nat)
    requires p < |cells| == |sh| && i < |cells| && Linked(cells, sh, p)
    requires sh[p].kids != [] ==> cells[p].last != p
    ensures cells[p].last < |cells| && var c := Adopted(cells, p)[i];
            c == (if i == p then cells[i].(first := FirstOf(sh[p].kids + [|cells|]), last := |cells|,
                                           count := |sh[p].kids| + 1)
                  else if sh[p].kids != [] && i == cells[p].last then cells[i].(next := |cells|)
                  else cells[i])
  {
  }

  /** The lists of children stay linked. */
  lemma AdoptedLinks(cells: seq<Cell>, sh: seq<Shadow>, p: nat, c: Cell, tree: Option<Cp>, i: nat)
    requires p < |cells| == |sh| && i <= |cells|
    requires forall j :: 0 <= j < |cells| ==> Linked(cells, sh, j)
    requires c.first == 0 && c.last == 0 && c.count == 0 && c.next == 0
    ensures cells[p].last < |cells|
    ensures Linked(Adopted(cells, p) + [c], Adopting(sh, p, tree), i)
  {
    var kids := sh[p].kids;
    assert Linked(cells, sh, p);
    if kids != [] {
      assert Child(cells, sh, p, kids[|kids| - 1]);
    }
    AdoptedAt(cells, sh, p, p);
    var now, then' := Adopted(cells, p) + [c], Adopting(sh, p, tree);
    if i < |cells| {
      assert Linked(cells, sh, i);
      AdoptedAt(cells, sh, p, i);
      var list := then'[i].kids;
      forall k | 0 <= k < |list|
        ensures Child(now, then', i, list[k]) && now[list[k]].next == After(list, k)
      {
        if k < |sh[i].kids| {
          assert Child(cells, sh, i, sh[i].kids[k]);
          AdoptedAt(cells, sh, p, list[k]);
        }
      }
    }
  }

  predicate SameButLinks(a: Cell, b: Cell) {
    a.kind == b.kind && a.quant == b.quant && a.name == b.name
  }

  lemma AdoptedTypes(cells: seq<Cell>, p: nat, i: nat)
    requires p < |cells| && i < |cells| && cells[p].last < |cells|
    ensures SameButLinks(Adopted(cells, p)[i], cells[i])
  {
  }

  /** Trees that are complete stay so when shadows change elsewhere. */
  lemma AreTreesStay(a: seq<Shadow>, b: seq<Shadow>, kids: seq<nat>, children: seq<Cp>)
    requires AreTrees(a, kids, children) && |a| <= |b|
    requires forall i :: 0 <= i < |a| && a[i].tree.Some? ==> b[i].tree == a[i].tree
    ensures AreTrees(b, kids, children)
  {
  }

  /** A child is linked under the innermost open group. */
  lemma AdoptedComplete(cells: seq<Cell>, sh: seq<Shadow>, index: seq<nat>, stack: seq<Frame>, c: Cell,
                        tree: Option<Cp>, i: nat)
    requires Shape(cells, sh, index, stack) && index != [] && i < |cells|
    requires index[|index| - 1] < |cells| && cells[index[|index| - 1]].last < |cells|
    requires tree.Some? ==> Complete(c, Adopting(sh, index[|index| - 1], tree), [], tree.value)
    ensures var p := index[|index| - 1];
            var now, then' := Adopted(cells, p) + [c], Adopting(sh, p, tree);
            then'[i].tree.Some? ==> Complete(now[i], then', then'[i].kids, then'[i].tree.value)
  {
    hide Adopted, Linked;
    var p := index[|index| - 1];
    var then' := Adopting(sh, p, tree);
    assert OpenAt(cells, sh, index, stack, |index| - 1);
    AdoptedTypes(cells, p, i);
    if sh[i].tree.Some? && sh[i].tree.value.Group? {
      AreTreesStay(sh, then', sh[i].kids, sh[i].tree.value.children);
    }
  }

  /** The groups around the innermost one are not touched. */
  lemma AdoptedOuter(cells: seq<Cell>, sh: seq<Shadow>, index: seq<nat>, stack: seq<Frame>, c: Cell,
                     tree: Option<Cp>, l: nat)
    requires Shape(cells, sh, index, stack) && l + 1 < |index|
    requires index[|index| - 1] < |cells| && cells[index[|index| - 1]].last < |cells|
    ensures var p := index[|index| - 1];
            OpenAt(Adopted(cells, p) + [c], Adopting(sh, p, tree), index, stack, l)
  {
    hide Adopted, Linked;
    var p := index[|index| - 1];
    assert OpenAt(cells, sh, index, stack, l) && OpenAt(cells, sh, index, stack, |index| - 1);
    AdoptedTypes(cells, p, index[l]);
    AreTreesStay(sh, Adopting(sh, p, tree), sh[index[l]].kids, stack[l].children);
  }

  lemma LastFits(cells: seq<Cell>, sh: seq<Shadow>, index: seq<nat>, stack: seq<Frame>)
    requires Shape(cells, sh, index, stack) && index != []
    ensures var p := index[|index| - 1]; p < |cells| == |sh| && cells[p].last < |cells|
  {
    var p := index[|index| - 1];
    assert OpenAt(cells, sh, index, stack, |index| - 1);
    assert Linked(cells, sh, p);
    if sh[p].kids != [] {
      assert Child(cells, sh, p, sh[p].kids[|sh[p].kids| - 1]);
    }
  }

  predicate NoLinks(c: Cell) {
    c.first == 0 && c.last == 0 && c.count == 0 && c.next == 0
  }

  /** A name is a complete child of the innermost open group. */
  lemma NameAdded(cells: seq<Cell>, sh: seq<Shadow>, index: seq<nat>, stack: seq<Frame>, c: Cell)
    requires Shape(cells, sh, index, stack) && index != [] && NoLinks(c) && c.kind == NameCell
    ensures var p, leaf := index[|index| - 1], Leaf(c.name, c.quant);
            && p < |cells| && cells[p].last < |cells|
            && Shape(Adopted(cells, p) + [c], Adopting(sh, p, Some(leaf)), index, AddItem(stack, leaf))
  {
    hide Adopted, Linked, Complete, OpenAt;
    LastFits(cells, sh, index, stack);
    var p, leaf := index[|index| - 1], Leaf(c.name, c.quant);
    var now, then', later := Adopted(cells, p) + [c], Adopting(sh, p, Some(leaf)), AddItem(stack, leaf);
    LeafComplete(c, then');
    forall i | 0 <= i < |now| ensures Linked(now, then', i) {
      AdoptedLinks(cells, sh, p, c, Some(leaf), i);
    }
    forall i | 0 <= i < |now| && then'[i].tree.Some?
      ensures Complete(now[i], then', then'[i].kids, then'[i].tree.value)
    {
      if i < |cells| {
        AdoptedComplete(cells, sh, index, stack, c, Some(leaf), i);
      }
    }
    forall l | 0 <= l < |index| ensures OpenAt(now, then', index, later, l) {
      if l + 1 < |index| {
        AdoptedOuter(cells, sh, index, stack, c, Some(leaf), l);
        OuterSame(now, then', index, stack, later, l);
      } else {
        NameInner(cells, sh, index, stack, c);
      }
    }
  }

  lemma LeafComplete(c: Cell, sh: seq<Shadow>)
    requires c.kind == NameCell
    ensures Complete(c, sh, [], Leaf(c.name, c.quant))
  {
  }

  lemma OuterSame(cells: seq<Cell>, sh: seq<Shadow>, index: seq<nat>, stack: seq<Frame>, later: seq<Frame>, l: nat)
    requires l < |index| == |stack| == |later| && |cells| == |sh| && OpenAt(cells, sh, index, stack, l)
    requires stack[l] == later[l]
    ensures OpenAt(cells, sh, index, later, l)
  {
  }

  lemma NameInner(cells: seq<Cell>, sh: seq<Shadow>, index: seq<nat>, stack: seq<Frame>, c: Cell)
    requires Shape(cells, sh, index, stack) && index != [] && NoLinks(c) && c.kind == NameCell
    requires index[|index| - 1] < |cells| && cells[index[|index| - 1]].last < |cells|
    ensures var p, leaf := index[|index| - 1], Leaf(c.name, c.quant);
            OpenAt(Adopted(cells, p) + [c], Adopting(sh, p, Some(leaf)), index, AddItem(stack, leaf), |index| - 1)
  {
    hide Adopted, Linked, Complete;
    var l := |index| - 1;
    var p, leaf := index[l], Leaf(c.name, c.quant);
    assert OpenAt(cells, sh, index, stack, l);
    AdoptedTypes(cells, p, p);
    var then' := Adopting(sh, p, Some(leaf));
    AreTreesStay(sh, then', sh[p].kids, stack[l].children);
    assert then'[p].kids == sh[p].kids + [|sh|];
    assert then'[|sh|].tree == Some(leaf);
  }

  /** The outermost group. */
  lemma RootAdded(c: Cell)
    requires NoLinks(c) && c.kind == SeqCell
    ensures Shape([c], [Shadow([], 0, None)], [0], [Frame(None, [])])
  {
  }

  /** A group is opened inside the innermost one. */
  lemma GroupAdded(cells: seq<Cell>, sh: seq<Shadow>, index: seq<nat>, stack: seq<Frame>, c: Cell)
    requires Shape(cells, sh, index, stack) && index != [] && NoLinks(c) && c.kind == SeqCell
    ensures var p := index[|index| - 1];
            && p < |cells| && cells[p].last < |cells|
            && Shape(Adopted(cells, p) + [c], Adopting(sh, p, None), index + [|cells|], stack + [Frame(None, [])])
  {
    hide Adopted, Linked, Complete, OpenAt;
    LastFits(cells, sh, index, stack);
    var p := index[|index| - 1];
    var now, then' := Adopted(cells, p) + [c], Adopting(sh, p, None);
    var index', stack' := index + [|cells|], stack + [Frame(None, [])];
    forall i | 0 <= i < |now| ensures Linked(now, then', i) {
      AdoptedLinks(cells, sh, p, c, None, i);
    }
    forall i | 0 <= i < |now| && then'[i].tree.Some?
      ensures Complete(now[i], then', then'[i].kids, then'[i].tree.value)
    {
      AdoptedComplete(cells, sh, index, stack, c, None, i);
    }
    forall l | 0 <= l < |index'| ensures OpenAt(now, then', index', stack', l) {
      if l + 1 < |index| {
        AdoptedOuter(cells, sh, index, stack, c, None, l);
        OuterLonger(now, then', index, stack, index', stack', l);
      } else {
        GroupInner(cells, sh, index, stack, c);
      }
    }
    IndexesBelow(cells, sh, index, stack);
  }

  lemma IndexesBelow(cells: seq<Cell>, sh: seq<Shadow>, index: seq<nat>, stack: seq<Frame>)
    requires Shape(cells, sh, index, stack)
    ensures forall l :: 0 <= l < |index| ==> index[l] < |cells|
  {
    forall l | 0 <= l < |index| ensures index[l] < |cells| {
      assert OpenAt(cells, sh, index, stack, l);
    }
  }

  lemma OuterLonger(cells: seq<Cell>, sh: seq<Shadow>, index: seq<nat>, stack: seq<Frame>, index': seq<nat>,
                    stack': seq<Frame>, l: nat)
    requires |index| == |stack| && |index'| == |stack'| && |cells| == |sh| && l + 1 < |index| <= |index'|
    requires OpenAt(cells, sh, index, stack, l)
    requires stack[l] == stack'[l] && index[l] == index'[l] && index[l + 1] == index'[l + 1]
    ensures OpenAt(cells, sh, index', stack', l)
  {
  }

  lemma GroupInner(cells: seq<Cell>, sh: seq<Shadow>, index: seq<nat>, stack: seq<Frame>, c: Cell)
    requires Shape(cells, sh, index, stack) && index != [] && NoLinks(c) && c.kind == SeqCell
    requires index[|index| - 1] < |cells| && cells[index[|index| - 1]].last < |cells|
    ensures var p := index[|index| - 1];
            var now, then' := Adopted(cells, p) + [c], Adopting(sh, p, None);
            && OpenAt(now, then', index + [|cells|], stack + [Frame(None, [])], |index| - 1)
            && OpenAt(now, then', index + [|cells|], stack + [Frame(None, [])], |index|)
  {
    hide Adopted, Linked, Complete;
    var l := |index| - 1;
    var p := index[l];
    assert OpenAt(cells, sh, index, stack, l);
    AdoptedTypes(cells, p, p);
    var then' := Adopting(sh, p, None);
    AreTreesStay(sh, then', sh[p].kids, stack[l].children);
    assert then'[p].kids == sh[p].kids + [|sh|];
    assert then'[p].kids[|stack[l].children|..] == [|sh|];
    assert then'[|sh|] == Shadow([], p, None);
  }

  // ----- connectors and closing

  /** The innermost group gets its type. */
  lemma Typed(cells: seq<Cell>, sh: seq<Shadow>, index: seq<nat>, stack: seq<Frame>, kind: Kind)
    requires Shape(cells, sh, index, stack) && index != []
    ensures var p := index[|index| - 1];
            && p < |cells|
            && Shape(cells[p := cells[p].(kind := CellOf(kind))], sh, index, Connect(stack, kind))
  {
    hide Linked, Complete, OpenAt;
    LastFits(cells, sh, index, stack);
    var p := index[|index| - 1];
    var now, later := cells[p := cells[p].(kind := CellOf(kind))], Connect(stack, kind);
    InnerIsOpen(cells, sh, index, stack);
    forall i | 0 <= i < |now| ensures Linked(now, sh, i) {
      LinkedStays(cells, now, sh, sh, i);
    }
    forall l | 0 <= l < |index| ensures OpenAt(now, sh, index, later, l) {
      TypedAt(cells, sh, index, stack, kind, l);
    }
  }

  lemma InnerIsOpen(cells: seq<Cell>, sh: seq<Shadow>, index: seq<nat>, stack: seq<Frame>)
    requires Shape(cells, sh, index, stack) && index != []
    ensures index[|index| - 1] < |sh| && sh[index[|index| - 1]].tree.None?
  {
    assert OpenAt(cells, sh, index, stack, |index| - 1);
  }

  /** Links do not depend on types and trees. */
  lemma LinkedStays(a: seq<Cell>, b: seq<Cell>, sh: seq<Shadow>, sh': seq<Shadow>, i: nat)
    requires |a| == |b| == |sh| == |sh'| && i < |a| && Linked(a, sh, i)
    requires forall j :: 0 <= j < |a| ==> sh[j].kids == sh'[j].kids && sh[j].parent == sh'[j].parent
    requires forall j :: 0 <= j < |a| ==> SameLinks(a[j], b[j])
    ensures Linked(b, sh', i)
  {
  }

  predicate SameLinks(a: Cell, b: Cell) {
    a.first == b.first && a.last == b.last && a.count == b.count && a.next == b.next
  }

  lemma TypedAt(cells: seq<Cell>, sh: seq<Shadow>, index: seq<nat>, stack: seq<Frame>, kind: Kind, l: nat)
    requires Shape(cells, sh, index, stack) && l < |index| && index[|index| - 1] < |cells|
    ensures var p := index[|index| - 1];
            OpenAt(cells[p := cells[p].(kind := CellOf(kind))], sh, index, Connect(stack, kind), l)
  {
    hide Linked, Complete, AreTrees;
    assert OpenAt(cells, sh, index, stack, l);
    assert l + 1 < |index| ==> index[l] < index[|index| - 1];
  }

  /** The shadows when a group has been closed. */
  ghost function Closed(sh: seq<Shadow>, p: nat, cp: Cp): seq<Shadow>
    requires p < |sh|
  {
    sh[p := sh[p].(tree := Some(cp))]
  }

  /** The innermost group is complete; it is the last child of the group around it. */
  lemma GroupClosed(cells: seq<Cell>, sh: seq<Shadow>, index: seq<nat>, stack: seq<Frame>, quant: Quant)
    requires Shape(cells, sh, index, stack) && index != []
    ensures var p, top, below := index[|index| - 1], stack[|stack| - 1], stack[..|stack| - 1];
            var cp := Group(KindOf(top.conn), quant, top.children);
            && p < |cells|
            && Shape(cells[p := cells[p].(quant := quant)], Closed(sh, p, cp), index[..|index| - 1],
                     if below == [] then [] else AddItem(below, cp))
  {
    hide Linked, Complete, OpenAt;
    LastFits(cells, sh, index, stack);
    var p, top, below := index[|index| - 1], stack[|stack| - 1], stack[..|stack| - 1];
    var cp := Group(KindOf(top.conn), quant, top.children);
    var now, then' := cells[p := cells[p].(quant := quant)], Closed(sh, p, cp);
    var outer, later := index[..|index| - 1], if below == [] then [] else AddItem(below, cp);
    InnerIsOpen(cells, sh, index, stack);
    forall i | 0 <= i < |now| ensures Linked(now, then', i) {
      LinkedStays(cells, now, sh, then', i);
    }
    forall i | 0 <= i < |now| && then'[i].tree.Some?
      ensures Complete(now[i], then', then'[i].kids, then'[i].tree.value)
    {
      if i == p {
        ClosedComplete(cells, sh, index, stack, quant);
      } else {
        StaysComplete(cells[i], sh, then', sh[i].kids, sh[i].tree.value);
      }
    }
    forall l | 0 <= l < |outer| ensures OpenAt(now, then', outer, later, l) {
      ClosedAt(cells, sh, index, stack, quant, l);
    }
  }

  lemma StaysComplete(c: Cell, sh: seq<Shadow>, sh': seq<Shadow>, kids: seq<nat>, tree: Cp)
    requires Complete(c, sh, kids, tree) && |sh| <= |sh'|
    requires forall i :: 0 <= i < |sh| && sh[i].tree.Some? ==> sh'[i].tree == sh[i].tree
    ensures Complete(c, sh', kids, tree)
  {
  }

  lemma ClosedComplete(cells: seq<Cell>, sh: seq<Shadow>, index: seq<nat>, stack: seq<Frame>, quant: Quant)
    requires Shape(cells, sh, index, stack) && index != [] && index[|index| - 1] < |cells|
    ensures var p, top := index[|index| - 1], stack[|stack| - 1];
            var cp := Group(KindOf(top.conn), quant, top.children);
            Complete(cells[p].(quant := quant), Closed(sh, p, cp), sh[p].kids, cp)
  {
    hide Linked;
    var p, top := index[|index| - 1], stack[|stack| - 1];
    var cp := Group(KindOf(top.conn), quant, top.children);
    assert OpenAt(cells, sh, index, stack, |index| - 1);
    AreTreesStay(sh, Closed(sh, p, cp), sh[p].kids, top.children);
  }

  lemma ClosedAt(cells: seq<Cell>, sh: seq<Shadow>, index: seq<nat>, stack: seq<Frame>, quant: Quant, l: nat)
    requires Shape(cells, sh, index, stack) && l + 1 < |index| && index[|index| - 1] < |cells|
    ensures var p, top, below := index[|index| - 1], stack[|stack| - 1], stack[..|stack| - 1];
            var cp := Group(KindOf(top.conn), quant, top.children);
            OpenAt(cells[p := cells[p].(quant := quant)], Closed(sh, p, cp), index[..|index| - 1],
                   AddItem(below, cp), l)
  {
    hide Linked, Complete;
    var p, top, below := index[|index| - 1], stack[|stack| - 1], stack[..|stack| - 1];
    var cp := Group(KindOf(top.conn), quant, top.children);
    var i := index[l];
    assert OpenAt(cells, sh, index, stack, l) && OpenAt(cells, sh, index, stack, |index| - 1);
    assert i < p;
    AreTreesStay(sh, Closed(sh, p, cp), sh[i].kids, stack[l].children);
    if l + 2 == |index| {
      assert sh[i].kids[|stack[l].children|..][0] == p;
    }
  }
}
