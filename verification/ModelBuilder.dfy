/** The model that is handed to the application: `build_node` and `build_model`. */
module ModelBuilder {
  import opened Common
  import opened ContentModel
  import opened Scaffold

  /** XML_Content; name and children are positions in the block of strings and in the block of cells. */
  datatype Content = Content(kind: CellType, quant: Quant, name: Option<nat>, numchildren: nat, children: nat)

  /** The cells that a tree takes. */
  function Size(cp: Cp): (n: nat)
    ensures n >= 1
    decreases cp
  {
    match cp
    case Group(_, _, children) => 1 + Sizes(children)
    case _ => 1
  }

  function Sizes(children: seq<Cp>): nat
    decreases children
  {
    if children == [] then 0 else Sizes(children[..|children| - 1]) + Size(children[|children| - 1])
  }

  /** The characters that the names in a tree take, each with its terminator. */
  function Chars(cp: Cp): nat
    decreases cp
  {
    match cp
    case Fixed(_) => 0
    case Leaf(name, _) => |name| + 1
    case Group(_, _, children) => CharsAll(children)
  }

  function CharsAll(children: seq<Cp>): nat
    decreases children
  {
    if children == [] then 0 else CharsAll(children[..|children| - 1]) + Chars(children[|children| - 1])
  }

  lemma TakeOne(children: seq<Cp>, i: nat)
    requires i < |children|
    ensures Sizes(children[..i + 1]) == Sizes(children[..i]) + Size(children[i])
    ensures CharsAll(children[..i + 1]) == CharsAll(children[..i]) + Chars(children[i])
  {
    hide Size, Chars;
    assert children[..i + 1][..i] == children[..i];
  }

  /** The later children need at least a cell each. */
  lemma {:induction false} RoomLeft(children: seq<Cp>, i: nat)
    requires i <= |children|
    ensures Sizes(children[..i]) + (|children| - i) <= Sizes(children)
    ensures CharsAll(children[..i]) <= CharsAll(children)
    decreases |children| - i
  {
    hide Size, Chars, Sizes, CharsAll;
    if i < |children| {
      TakeOne(children, i);
      RoomLeft(children, i + 1);
    } else {
      assert children[..i] == children;
    }
  }

  lemma {:induction false} RoomTaken(children: seq<Cp>, i: nat)
    requires i <= |children|
    ensures i <= Sizes(children[..i])
  {
    hide Size, Chars, Sizes, CharsAll;
    if i > 0 {
      RoomTaken(children, i - 1);
      TakeOne(children, i - 1);
    }
  }

  /** The string at a position, with its terminator. */
  ghost predicate NameAt(str: seq<char>, off: nat, name: string) {
    off + |name| < |str| && str[off..off + |name|] == name && str[off + |name|] == '\0'
  }

  /** Cell i holds the tree; the cells below it lie from lo to hi, and its names from slo to shi. */
  ghost predicate Holds(out: seq<Content>, str: seq<char>, i: nat, cp: Cp, lo: nat, hi: nat, slo: nat, shi: nat)
    decreases cp
  {
    && i < |out| && hi <= |out| && shi <= |str|
    && match cp
       case Fixed(any) => out[i] == Content(if any then AnyCell else EmptyCell, NoQuant, None, 0, out[i].children)
       case Leaf(name, quant) =>
         && out[i].kind == NameCell && out[i].quant == quant && out[i].numchildren == 0 && out[i].name.Some?
         && slo <= out[i].name.value && out[i].name.value + |name| < shi && NameAt(str, out[i].name.value, name)
       case Group(kind, quant, children) =>
         var base, n := out[i].children, |children|;
         && out[i] == Content(CellOf(kind), quant, None, n, base) && lo <= base && base + n <= hi
         && forall k :: 0 <= k < n ==> Holds(out, str, base + k, children[k], base + n, hi, slo, shi)
  }

  lemma {:induction false} HoldsStays(out: seq<Content>, str: seq<char>, out': seq<Content>, str': seq<char>, i: nat,
                                      cp: Cp, lo: nat, hi: nat, slo: nat, shi: nat)
    requires Holds(out, str, i, cp, lo, hi, slo, shi) && |out| == |out'| && |str| == |str'|
    requires out'[i] == out[i] && forall k :: lo <= k < hi ==> out'[k] == out[k]
    requires forall k :: slo <= k < shi ==> str'[k] == str[k]
    ensures Holds(out', str', i, cp, lo, hi, slo, shi)
    decreases cp
  {
    match cp
    case Fixed(_) =>
    case Leaf(name, _) =>
    case Group(_, _, children) =>
      var base, n := out[i].children, |children|;
      forall k | 0 <= k < n ensures Holds(out', str', base + k, children[k], base + n, hi, slo, shi) {
        HoldsStays(out, str, out', str', base + k, children[k], base + n, hi, slo, shi);
      }
  }

  lemma {:induction false} HoldsWider(out: seq<Content>, str: seq<char>, i: nat, cp: Cp, lo: nat, hi: nat, slo: nat,
                                      shi: nat, lo': nat, hi': nat, slo': nat, shi': nat)
    requires Holds(out, str, i, cp, lo, hi, slo, shi)
    requires lo' <= lo && hi <= hi' <= |out| && slo' <= slo && shi <= shi' <= |str|
    ensures Holds(out, str, i, cp, lo', hi', slo', shi')
    decreases cp
  {
    match cp
    case Fixed(_) =>
    case Leaf(name, _) =>
    case Group(_, _, children) =>
      var base, n := out[i].children, |children|;
      forall k | 0 <= k < n ensures Holds(out, str, base + k, children[k], base + n, hi', slo', shi') {
        HoldsWider(out, str, base + k, children[k], base + n, hi, slo, shi, base + n, hi', slo', shi');
      }
  }

  /** Names hold no terminator. */
  predicate PlainNames(cp: Cp)
    decreases cp
  {
    match cp
    case Fixed(_) => true
    case Leaf(name, _) => '\0' !in name
    case Group(_, _, children) => forall k :: 0 <= k < |children| ==> PlainNames(children[k])
  }

  lemma NameIs(str: seq<char>, off: nat, a: string, b: string)
    requires NameAt(str, off, a) && NameAt(str, off, b) && '\0' !in a && '\0' !in b
    ensures a == b
  {
  }

  /** The application can read off the model exactly the tree that was declared. */
  lemma {:induction false} ModelIsTree(out: seq<Content>, str: seq<char>, i: nat, a: Cp, b: Cp, lo: nat, hi: nat,
                                       slo: nat, shi: nat)
    requires Holds(out, str, i, a, lo, hi, slo, shi) && Holds(out, str, i, b, lo, hi, slo, shi)
    requires PlainNames(a) && PlainNames(b)
    ensures a == b
    decreases a
  {
    CellKinds(a, b);
    if a.Leaf? {
      NameIs(str, out[i].name.value, a.name, b.name);
    } else if a.Group? {
      var base, n := out[i].children, |a.children|;
      forall k | 0 <= k < n ensures a.children[k] == b.children[k] {
        ModelIsTree(out, str, base + k, a.children[k], b.children[k], base + n, hi, slo, shi);
      }
    }
  }

  lemma CellKinds(a: Cp, b: Cp)
    ensures a.Group? ==> CellOf(a.kind) !in {NameCell, EmptyCell, AnyCell}
    ensures b.Group? ==> CellOf(b.kind) !in {NameCell, EmptyCell, AnyCell}
    ensures a.Group? && b.Group? && CellOf(a.kind) == CellOf(b.kind) ==> a.kind == b.kind
  {
  }

  /** A scaffold in which this cell is complete. */
  ghost predicate Ready(cells: seq<Cell>, sh: seq<Shadow>, src: nat, cp: Cp) {
    && |cells| == |sh| && src < |cells| && sh[src].tree == Some(cp)
    && (forall i :: 0 <= i < |cells| ==> Linked(cells, sh, i))
    && (forall i :: 0 <= i < |cells| && sh[i].tree.Some? ==> Complete(cells[i], sh, sh[i].kids, sh[i].tree.value))
  }

  /** Nothing but these positions has changed. */
  ghost predicate OnlyChanged<T(!new)>(before: seq<T>, after: seq<T>, at: int, lo: nat, hi: nat) {
    |before| == |after| && forall k :: 0 <= k < |before| && k != at && !(lo <= k < hi) ==> after[k] == before[k]
  }

  /** The loop that copies a name with its terminator. */
  method CopyName(name: string, str: array<char>, strpos: nat) returns (spos: nat)
    requires strpos + |name| + 1 <= str.Length
    modifies str
    ensures spos == strpos + |name| + 1 && NameAt(str[..], strpos, name)
    ensures OnlyChanged(old(str[..]), str[..], -1, strpos, spos)
  {
    for k := 0 to |name|
      invariant forall j :: 0 <= j < k ==> str[strpos + j] == name[j]
      invariant OnlyChanged(old(str[..]), str[..], -1, strpos, strpos + k)
    {
      str[strpos + k] := name[k];
    }
    str[strpos + |name|] := '\0';
    spos := strpos + |name| + 1;
    assert str[..][strpos..strpos + |name|] == name;
  }

  /** build_node */
  method BuildNode(cells: seq<Cell>, src: nat, out: array<Content>, dest: nat, contpos: nat, str: array<char>,
                   strpos: nat, ghost sh: seq<Shadow>, ghost cp: Cp) returns (cpos: nat, spos: nat)
    requires Ready(cells, sh, src, cp) && dest < contpos
    requires contpos + Size(cp) - 1 <= out.Length && strpos + Chars(cp) <= str.Length
    modifies out, str
    ensures cpos == contpos + Size(cp) - 1 && spos == strpos + Chars(cp)
    ensures Holds(out[..], str[..], dest, cp, contpos, cpos, strpos, spos)
    ensures OnlyChanged(old(out[..]), out[..], dest, contpos, cpos)
    ensures OnlyChanged(old(str[..]), str[..], -1, strpos, spos)
    decreases cp, |cells|
  {
    hide Holds, Linked, Sizes, CharsAll;
    CompleteAt(cells, sh, src, cp);
    if cells[src].kind == NameCell {
      out[dest] := Content(cells[src].kind, cells[src].quant, Some(strpos), 0, 0);
      cpos := contpos;
      spos := CopyName(cells[src].name, str, strpos);
      LeafHolds(out[..], str[..], dest, cp, contpos, strpos);
    } else {
      cpos, spos := BuildGroup(cells, src, out, dest, contpos, str, strpos, sh, cp);
    }
  }

  /** The children of a group, in one run of cells, each with what lies below it. */
  method BuildGroup(cells: seq<Cell>, src: nat, out: array<Content>, dest: nat, contpos: nat, str: array<char>,
                    strpos: nat, ghost sh: seq<Shadow>, ghost cp: Cp) returns (cpos: nat, spos: nat)
    requires Ready(cells, sh, src, cp) && dest < contpos && cp.Group?
    requires contpos + Size(cp) - 1 <= out.Length && strpos + Chars(cp) <= str.Length
    modifies out, str
    ensures cpos == contpos + Size(cp) - 1 && spos == strpos + Chars(cp)
    ensures Holds(out[..], str[..], dest, cp, contpos, cpos, strpos, spos)
    ensures OnlyChanged(old(out[..]), out[..], dest, contpos, cpos)
    ensures OnlyChanged(old(str[..]), str[..], -1, strpos, spos)
    decreases cp, 0
  {
    hide Holds, Linked, Sizes, CharsAll, Complete, Ready, OnlyChanged;
    ghost var children := cp.children;
    GroupCell(cells, sh, src, cp);
    var n := cells[src].count;
    RoomLeft(children, 0);
    ghost var before := out[..];
    out[dest] := Content(cells[src].kind, cells[src].quant, None, n, contpos);
    ChangedOne(before, out[..], dest, contpos, contpos + n);
    ChangedOne(str[..], str[..], -1, strpos, strpos);
    var i, cn := 0, cells[src].first;
    cpos, spos := contpos + n, strpos;
    NothingBuilt(children);
    while i < n
      invariant i <= n
      invariant i < n ==> cn == sh[src].kids[i]
      invariant cpos == contpos + n + Sizes(children[..i]) - i && spos == strpos + CharsAll(children[..i])
      invariant cpos <= out.Length && spos <= str.Length
      invariant out[dest] == Content(CellOf(cp.kind), cp.quant, None, n, contpos)
      invariant Built(out[..], str[..], contpos, children, i, n, cpos, strpos, spos)
      invariant OnlyChanged(old(out[..]), out[..], dest, contpos, cpos)
      invariant OnlyChanged(old(str[..]), str[..], -1, strpos, spos)
    {
      TakeOne(children, i);
      RoomLeft(children, i + 1);
      RoomTaken(children, i);
      KidReady(cells, sh, src, cp, i);
      ghost var o, s, c, p := out[..], str[..], cpos, spos;
      cpos, spos := BuildNode(cells, cn, out, contpos + i, cpos, str, spos, sh, children[i]);
      OneMore(o, s, out[..], str[..], contpos, children, i, n, c, cpos, strpos, p, spos);
      ChangesAdd(old(out[..]), o, out[..], dest, contpos + i, contpos, c, cpos);
      ChangesAdd(old(str[..]), s, str[..], -1, -1, strpos, p, spos);
      Untouched(o, out[..], dest, contpos + i, c, cpos);
      i, cn := i + 1, cells[cn].next;
    }
    assert children[..n] == children;
    AllBuilt(out[..], str[..], dest, cp, contpos, cpos, strpos, spos);
  }

  lemma CompleteAt(cells: seq<Cell>, sh: seq<Shadow>, src: nat, cp: Cp)
    requires Ready(cells, sh, src, cp)
    ensures Complete(cells[src], sh, sh[src].kids, cp) && Linked(cells, sh, src)
    ensures cells[src].kind == NameCell <==> cp.Leaf?
    ensures cp.Leaf? || cp.Group?
  {
  }

  lemma LeafHolds(out: seq<Content>, str: seq<char>, i: nat, cp: Cp, contpos: nat, off: nat)
    requires i < |out| && contpos <= |out| && cp.Leaf? && NameAt(str, off, cp.name)
    requires out[i] == Content(NameCell, cp.quant, Some(off), 0, 0)
    ensures Holds(out, str, i, cp, contpos, contpos, off, off + |cp.name| + 1)
  {
  }

  lemma GroupCell(cells: seq<Cell>, sh: seq<Shadow>, src: nat, cp: Cp)
    requires Ready(cells, sh, src, cp) && cp.Group?
    ensures src < |cells| == |sh| && cells[src].count == |sh[src].kids| == |cp.children|
    ensures cells[src].kind == CellOf(cp.kind) && cells[src].quant == cp.quant
    ensures |cp.children| > 0 ==> cells[src].first == sh[src].kids[0]
    ensures Size(cp) == 1 + Sizes(cp.children) && Chars(cp) == CharsAll(cp.children)
  {
    hide Sizes, CharsAll;
    assert Linked(cells, sh, src);
  }

  /** The next child is complete too, and leads to the one after it. */
  lemma KidReady(cells: seq<Cell>, sh: seq<Shadow>, src: nat, cp: Cp, i: nat)
    requires Ready(cells, sh, src, cp) && cp.Group? && i < |cp.children| && |sh[src].kids| == |cp.children|
    ensures sh[src].kids[i] < |cells| && Ready(cells, sh, sh[src].kids[i], cp.children[i])
    ensures i + 1 < |cp.children| ==> cells[sh[src].kids[i]].next == sh[src].kids[i + 1]
  {
    assert Linked(cells, sh, src);
    assert Child(cells, sh, src, sh[src].kids[i]);
  }

  /** The first i children are in place. */
  ghost predicate Built(out: seq<Content>, str: seq<char>, base: nat, children: seq<Cp>, i: nat, n: nat, hi: nat,
                        slo: nat, shi: nat)
    requires i <= |children|
  {
    forall k :: 0 <= k < i ==> Holds(out, str, base + k, children[k], base + n, hi, slo, shi)
  }

  lemma NothingBuilt(children: seq<Cp>)
    ensures Sizes(children[..0]) == 0 && CharsAll(children[..0]) == 0
  {
  }

  lemma OneMore(o: seq<Content>, s: seq<char>, out: seq<Content>, str: seq<char>, base: nat, children: seq<Cp>,
                i: nat, n: nat, c: nat, cpos: nat, slo: nat, p: nat, spos: nat)
    requires i < |children| == n && base + n <= c <= cpos <= |out| && slo <= p <= spos <= |str|
    requires Built(o, s, base, children, i, n, c, slo, p)
    requires OnlyChanged(o, out, base + i, c, cpos) && OnlyChanged(s, str, -1, p, spos)
    requires Holds(out, str, base + i, children[i], c, cpos, p, spos)
    ensures Built(out, str, base, children, i + 1, n, cpos, slo, spos)
  {
    hide Holds;
    forall k | 0 <= k < i + 1 ensures Holds(out, str, base + k, children[k], base + n, cpos, slo, spos) {
      if k < i {
        HoldsStays(o, s, out, str, base + k, children[k], base + n, c, slo, p);
        HoldsWider(out, str, base + k, children[k], base + n, c, slo, p, base + n, cpos, slo, spos);
      } else {
        HoldsWider(out, str, base + i, children[i], c, cpos, p, spos, base + n, cpos, slo, spos);
      }
    }
  }

  lemma ChangedOne<T(!new)>(a: seq<T>, b: seq<T>, at: int, lo: nat, hi: nat)
    requires |a| == |b| && forall k :: 0 <= k < |a| && k != at ==> b[k] == a[k]
    ensures OnlyChanged(a, b, at, lo, hi)
  {
  }

  lemma ChangesAdd<T(!new)>(a: seq<T>, b: seq<T>, c: seq<T>, at: int, here: int, lo: nat, mid: nat, hi: nat)
    requires OnlyChanged(a, b, at, lo, mid) && OnlyChanged(b, c, here, mid, hi) && lo <= mid <= hi
    requires here == -1 || lo <= here < mid
    ensures OnlyChanged(a, c, at, lo, hi)
  {
  }

  lemma Untouched<T(!new)>(b: seq<T>, c: seq<T>, at: nat, here: nat, lo: nat, hi: nat)
    requires OnlyChanged(b, c, here, lo, hi) && at < |b| && at != here && at < lo
    ensures c[at] == b[at]
  {
  }

  lemma AllBuilt(out: seq<Content>, str: seq<char>, i: nat, cp: Cp, base: nat, hi: nat, slo: nat, shi: nat)
    requires cp.Group? && i < |out| && hi <= |out| && shi <= |str| && base + |cp.children| <= hi
    requires out[i] == Content(CellOf(cp.kind), cp.quant, None, |cp.children|, base)
    requires Built(out, str, base, cp.children, |cp.children|, |cp.children|, hi, slo, shi)
    ensures Holds(out, str, i, cp, base, hi, slo, shi)
  {
  }

  /** build_model: one allocation, filled exactly. */
  method BuildModel(cells: seq<Cell>, contentStringLen: nat, ghost sh: seq<Shadow>, ghost cp: Cp)
    returns (out: array<Content>, str: array<char>)
    requires Ready(cells, sh, 0, cp) && |cells| == Size(cp) && contentStringLen == Chars(cp)
    ensures fresh(out) && fresh(str) && out.Length == |cells| && str.Length == contentStringLen
    ensures Holds(out[..], str[..], 0, cp, 1, out.Length, 0, str.Length)
  {
    hide Ready, Holds;
    out := new Content[|cells|];
    str := new char[contentStringLen];
    var cpos, spos := BuildNode(cells, 0, out, 0, 1, str, 0, sh, cp);
  }
}
