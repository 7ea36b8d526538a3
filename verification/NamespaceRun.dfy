/** Whole runs of tags in namespace mode: the names that the handlers get, and the bindings between the tags. */
module NamespaceRun {
  import opened Bytes
  import opened Common
  import opened Environment
  import opened NamespaceScope

  // ----- what Namespaces in XML 1.0 demands

  /** A declaration as the standard sees it: no text undeclares the default namespace. */
  datatype Bound = Bound(prefix: Prefix, text: Option<Octets>)

  /** An open element: the name its handlers get, its raw name and its declarations. */
  datatype Open = Open(name: Octets, raw: Octets, decls: seq<Bound>)

  /** A tag, or the end of a buffer of input. A raw name is the name in the encoding of the document. */
  datatype Event =
    | StartTag(name: Octets, raw: Octets, decls: seq<(Prefix, Octets)>, prefix: Prefix?)
    | EmptyTag(name: Octets, raw: Octets, decls: seq<(Prefix, Octets)>, prefix: Prefix?)
    | EndTag(raw: Octets)
    | BufferEnd

  datatype Call = StartCall(name: Octets) | EndCall(name: Octets)

  /** The settings of a parser, and the declarations it starts with. */
  datatype Setting = Setting(sep: byte, triplets: bool, default: Prefix, inherited: seq<Bound>)

  datatype World = World(open: seq<Open>, calls: seq<Call>, failed: bool)

  const BEGIN := World([], [], false)

  /** The declarations in force: the inherited ones, then those of the open elements, outermost first. */
  ghost function Env(inherited: seq<Bound>, open: seq<Open>): seq<Bound> {
    if open == [] then inherited else Env(inherited, open[..|open| - 1]) + open[|open| - 1].decls
  }

  /** The text that a prefix is bound to: that of its innermost declaration. */
  ghost function Lookup(env: seq<Bound>, p: Prefix): Option<Octets> {
    if env == [] then None
    else if env[|env| - 1].prefix == p then env[|env| - 1].text
    else Lookup(env[..|env| - 1], p)
  }

  /** The declarations of a tag. A URI is kept with the separator. */
  ghost function Declared(s: Setting, decls: seq<(Prefix, Octets)>): (bs: seq<Bound>)
    ensures |bs| == |decls|
  {
    seq(|decls|, k requires 0 <= k < |decls| =>
      Bound(decls[k].0, if decls[k].1 == [] && decls[k].0.name.None? then None
                        else Some(decls[k].1 + if s.sep != 0 then [s.sep] else [])))
  }

  /** Section 6: the name of an element in an environment; none if its prefix is not bound. */
  ghost function ElementName(s: Setting, env: seq<Bound>, name: Octets, p: Prefix?): Option<Octets> {
    if p != null then
      var text := Lookup(env, p);
      if text.None? then None else Some(text.value + name[AfterColon(name)..] + Suffix(s.sep, s.triplets, p.name))
    else
      var text := Lookup(env, s.default);
      if text.None? then Some(name) else Some(text.value + name + Suffix(s.sep, s.triplets, s.default.name))
  }

  /** The name of a new element inside the open ones; none if the tag is refused. */
  ghost function NewName(s: Setting, w: World, name: Octets, decls: seq<(Prefix, Octets)>, p: Prefix?): Option<Octets> {
    if FirstRefusal(decls).Some? then None
    else ElementName(s, Env(s.inherited, w.open) + Declared(s, decls), name, p)
  }

  ghost function Step(s: Setting, w: World, e: Event): World {
    if w.failed then w else
      match e
      case StartTag(name, raw, decls, p) =>
        (match NewName(s, w, name, decls, p)
         case None => w.(failed := true)
         case Some(n) => World(w.open + [Open(n, raw, Declared(s, decls))], w.calls + [StartCall(n)], false))
      case EmptyTag(name, raw, decls, p) =>
        (match NewName(s, w, name, decls, p)
         case None => w.(failed := true)
         case Some(n) => w.(calls := w.calls + [StartCall(n)] + [EndCall(n)]))
      case EndTag(raw) =>
        if w.open == [] || w.open[|w.open| - 1].raw != raw then w.(failed := true) else
          World(w.open[..|w.open| - 1], w.calls + [EndCall(w.open[|w.open| - 1].name)], false)
      case BufferEnd => w
  }

  ghost function Steps(s: Setting, w: World, es: seq<Event>): World {
    if es == [] then w else Step(s, Steps(s, w, es[..|es| - 1]), es[|es| - 1])
  }

  // ----- properties of all runs

  /** The names of the calls that are still open; none if an end call does not repeat the name of its start call. */
  ghost function Nesting(calls: seq<Call>): Option<seq<Octets>> {
    if calls == [] then Some([]) else
      var outer := Nesting(calls[..|calls| - 1]);
      match calls[|calls| - 1]
      case StartCall(n) => if outer.None? then None else Some(outer.value + [n])
      case EndCall(n) =>
        if outer.Some? && outer.value != [] && outer.value[|outer.value| - 1] == n then
          Some(outer.value[..|outer.value| - 1])
        else None
  }

  ghost function Names(open: seq<Open>): (ns: seq<Octets>)
    ensures |ns| == |open|
  {
    seq(|open|, k requires 0 <= k < |open| => open[k].name)
  }

  lemma NestingMore(calls: seq<Call>, c: Call)
    ensures Nesting(calls + [c]) ==
            var outer := Nesting(calls);
            match c
            case StartCall(n) => if outer.None? then None else Some(outer.value + [n])
            case EndCall(n) =>
              if outer.Some? && outer.value != [] && outer.value[|outer.value| - 1] == n then
                Some(outer.value[..|outer.value| - 1])
              else None
  {
    assert (calls + [c])[..|calls|] == calls;
  }

  lemma StepNests(s: Setting, w: World, e: Event)
    requires Nesting(w.calls) == Some(Names(w.open))
    ensures Nesting(Step(s, w, e).calls) == Some(Names(Step(s, w, e).open))
  {
    hide NewName, Nesting;
    var next := Step(s, w, e);
    if next.failed {
      return;
    }
    match e
    case StartTag(name, raw, decls, p) =>
      var n := NewName(s, w, name, decls, p).value;
      NestingMore(w.calls, StartCall(n));
      assert Names(next.open) == Names(w.open) + [n];
    case EmptyTag(name, raw, decls, p) =>
      var n := NewName(s, w, name, decls, p).value;
      NestingMore(w.calls, StartCall(n));
      NestingMore(w.calls + [StartCall(n)], EndCall(n));
      assert (Names(w.open) + [n])[..|w.open|] == Names(w.open);
    case EndTag(_) =>
      NestingMore(w.calls, EndCall(w.open[|w.open| - 1].name));
      assert Names(next.open) == Names(w.open)[..|w.open| - 1];
    case BufferEnd =>
  }

  /** Every end-element call repeats the name of the start-element call that it matches. */
  lemma {:induction false} EndRepeatsStart(s: Setting, es: seq<Event>)
    ensures var w := Steps(s, BEGIN, es); Nesting(w.calls) == Some(Names(w.open))
    decreases |es|
  {
    hide Step;
    if es == [] {
      assert Names([]) == [];
    } else {
      EndRepeatsStart(s, es[..|es| - 1]);
      StepNests(s, Steps(s, BEGIN, es[..|es| - 1]), es[|es| - 1]);
    }
  }

  /** The declaration at k is the last one of the prefix, and binds it to the text. */
  ghost predicate Binds(env: seq<Bound>, k: nat, p: Prefix, text: Octets) {
    k < |env| && env[k] == Bound(p, Some(text)) && forall j :: k < j < |env| ==> env[j].prefix != p
  }

  /** A prefix is bound by its last declaration in an environment, and by nothing else. */
  lemma {:induction false} InnermostBinds(env: seq<Bound>, p: Prefix, text: Octets)
    ensures Lookup(env, p) == Some(text) <==> exists k :: Binds(env, k, p, text)
    decreases |env|
  {
    if env != [] {
      var n, front := |env| - 1, env[..|env| - 1];
      InnermostBinds(front, p, text);
      if env[n].prefix == p {
        assert env[n].text == Some(text) ==> Binds(env, n, p, text);
      } else {
        assert forall k :: Binds(front, k, p, text) ==> Binds(env, k, p, text);
        assert forall k :: Binds(env, k, p, text) ==> Binds(front, k, p, text);
      }
    }
  }

  /** The run stays inside the elements that are open now. */
  ghost predicate StaysInside(s: Setting, w: World, es: seq<Event>) {
    forall k :: 0 <= k <= |es| ==> |Steps(s, w, es[..k]).open| >= |w.open|
  }

  lemma FrontInside(s: Setting, w: World, es: seq<Event>)
    requires es != [] && StaysInside(s, w, es)
    ensures StaysInside(s, w, es[..|es| - 1]) && |Steps(s, w, es).open| >= |w.open|
  {
    hide Steps;
    var front := es[..|es| - 1];
    assert es[..|es|] == es;
    assert forall k :: 0 <= k <= |front| ==> front[..k] == es[..k];
  }

  /** An event opens one element or closes the innermost one; the others stay. */
  lemma StepKeeps(s: Setting, w: World, e: Event, n: nat)
    requires n <= |w.open| && n <= |Step(s, w, e).open|
    ensures Step(s, w, e).open[..n] == w.open[..n]
  {
    hide NewName;
  }

  lemma {:induction false} OuterKept(s: Setting, w: World, es: seq<Event>)
    requires StaysInside(s, w, es)
    ensures w.open <= Steps(s, w, es).open
    decreases |es|
  {
    hide Step, StaysInside;
    if es != [] {
      var front := es[..|es| - 1];
      FrontInside(s, w, es);
      OuterKept(s, w, front);
      StepKeeps(s, Steps(s, w, front), es[|es| - 1], |w.open|);
    }
  }

  /** The inner events stay inside the element that the first one opens, and leave it open. */
  ghost predicate Encloses(s: Setting, w: World, start: Event, inner: seq<Event>) {
    && StaysInside(s, Step(s, w, start), inner)
    && |Steps(s, Step(s, w, start), inner).open| == |w.open| + 1
  }

  /** After the end tag of an element the environment is that before its start tag, whatever was inside. */
  lemma ScopeRestored(s: Setting, w: World, start: Event, inner: seq<Event>, end: Event)
    requires start.StartTag? && end.EndTag?
    requires Encloses(s, w, start, inner) && !Step(s, Steps(s, Step(s, w, start), inner), end).failed
    ensures Step(s, Steps(s, Step(s, w, start), inner), end).open == w.open
  {
    hide NewName, Steps, StaysInside;
    OuterKept(s, Step(s, w, start), inner);
  }

  // ----- names in the words of the standard

  /** An element q:local whose prefix is bound: the text, the local part, and with triplets the prefix. */
  lemma PrefixedName(s: Setting, env: seq<Bound>, q: Octets, local: Octets, p: Prefix)
    requires 0x3A !in q
    ensures ElementName(s, env, q + [0x3A] + local, p) ==
            match Lookup(env, p)
            case None => None
            case Some(text) => Some(text + local + if s.triplets && p.name.Some? then [s.sep] + p.name.value else [])
  {
    AfterFirstColon(q, local);
    assert (q + [0x3A] + local)[|q| + 1..] == local;
  }

  /** The start handler gets that name, for any element q:local that is not refused. */
  lemma PrefixedTagReported(s: Setting, w: World, e: Event, q: Octets, local: Octets, text: Octets)
    requires !w.failed && e.StartTag? && e.prefix != null && 0x3A !in q && e.name == q + [0x3A] + local
    requires FirstRefusal(e.decls).None?
    requires Lookup(Env(s.inherited, w.open) + Declared(s, e.decls), e.prefix) == Some(text)
    ensures !Step(s, w, e).failed
    ensures Step(s, w, e).calls ==
            w.calls + [StartCall(text + local + if s.triplets && e.prefix.name.Some? then [s.sep] + e.prefix.name.value
                                                else [])]
  {
    hide ElementName, Lookup;
    PrefixedName(s, Env(s.inherited, w.open) + Declared(s, e.decls), q, local, e.prefix);
  }

  /** An element without a prefix is in the default namespace, if there is one. */
  lemma UnprefixedName(s: Setting, env: seq<Bound>, name: Octets)
    ensures ElementName(s, env, name, null) ==
            match Lookup(env, s.default)
            case None => Some(name)
            case Some(text) =>
              Some(text + name + if s.triplets && s.default.name.Some? then [s.sep] + s.default.name.value else [])
  {
  }

  /** With the separator |, the tag <p:e xmlns:p="u"> is reported as u|e. */
  lemma TagReported(p: Prefix, default: Prefix)
    requires p.name == Some([0x70])
    ensures var s := Setting(0x7C, false, default, []);
            Steps(s, BEGIN, [StartTag([0x70, 0x3A, 0x65], [0x70, 0x3A, 0x65], [(p, [0x75])], p)]).calls ==
            [StartCall([0x75, 0x7C, 0x65])]
  {
    hide ElementName, Lookup;
    var s := Setting(0x7C, false, default, []);
    var decls := [(p, [0x75])];
    assert |XML| == 3 && |XMLNS| == 5 && |XML_NAMESPACE| == 36 && |XMLNS_NAMESPACE| == 29;
    assert Refusal(Some([0x70]), [0x75]).None? && decls[1..] == [] && FirstRefusal(decls[1..]).None?;
    var env := Declared(s, decls);
    assert [0x75] + [0x7C] == [0x75, 0x7C];
    assert env[0] == Bound(p, Some([0x75, 0x7C]));
    assert Env(s.inherited, BEGIN.open) == [] && [] + env == env;
    InnermostBinds(env, p, [0x75, 0x7C]);
    assert Binds(env, 0, p, [0x75, 0x7C]);
    PrefixedName(s, env, [0x70], [0x65], p);
    assert [0x70] + [0x3A] + [0x65] == [0x70, 0x3A, 0x65];
    assert Steps(s, BEGIN, []) == BEGIN;
    assert [0x75, 0x7C] + [0x65] + [] == [0x75, 0x7C, 0x65];
  }

  // ----- the parser

  /** The trail as the standard sees it. */
  ghost function Plain(trail: seq<Decl>): (bs: seq<Bound>)
    ensures |bs| == |trail|
  {
    seq(|trail|, k requires 0 <= k < |trail| =>
      Bound(trail[k].prefix, if trail[k].undeclares then None else Some(trail[k].text)))
  }

  lemma {:induction false} PlainLookup(trail: seq<Decl>, p: Prefix)
    ensures Lookup(Plain(trail), p) == BoundText(trail, p)
    decreases |trail|
  {
    if trail != [] {
      assert Plain(trail)[..|trail| - 1] == Plain(trail[..|trail| - 1]);
      PlainLookup(trail[..|trail| - 1], p);
    }
  }

  /** The trail and the scopes of a parser are those of the open elements. */
  ghost predicate Models(s: Setting, open: seq<Open>, trail: seq<Decl>, scopes: seq<Scope>)
    decreases |open|
  {
    && |scopes| == |open| && Plain(trail) == Env(s.inherited, open)
    && (open == [] ||
        (var outer, last := open[..|open| - 1], scopes[|scopes| - 1];
         && last.name == open[|open| - 1].name && last.raw == open[|open| - 1].raw && last.start <= |trail|
         && Models(s, outer, trail[..last.start], scopes[..|scopes| - 1])))
  }

  /** The declarations of a tag on the trail. */
  lemma DeclaredPlain(parser: NsParser, s: Setting, before: seq<Decl>, now: seq<Decl>, decls: seq<(Prefix, Octets)>)
    requires parser.sep == s.sep && parser.DeclaresAll(before, now, decls)
    ensures Plain(now) == Plain(before) + Declared(s, decls)
  {
  }

  lemma StartModels(parser: NsParser, s: Setting, open: seq<Open>, before: seq<Decl>, scopes: seq<Scope>,
                    now: seq<Decl>, decls: seq<(Prefix, Octets)>, name: Octets, raw: Octets)
    requires parser.sep == s.sep && Models(s, open, before, scopes) && parser.DeclaresAll(before, now, decls)
    ensures Models(s, open + [Open(name, raw, Declared(s, decls))], now, scopes + [Scope(name, raw, |before|)])
  {
    hide Declared;
    DeclaredPlain(parser, s, before, now, decls);
    var later, after := open + [Open(name, raw, Declared(s, decls))], scopes + [Scope(name, raw, |before|)];
    assert later[..|later| - 1] == open && after[..|after| - 1] == scopes && now[..|before|] == before;
  }

  lemma NameModels(parser: NsParser, s: Setting, trail: seq<Decl>, name: Octets, p: Prefix?)
    requires parser.sep == s.sep && parser.triplets == s.triplets
    ensures parser.NameFor(trail, name, p, s.default) == ElementName(s, Plain(trail), name, p)
  {
    hide BoundText, Lookup, Plain;
    PlainLookup(trail, s.default);
    if p != null {
      PlainLookup(trail, p);
    }
  }

  /** What is declared and named of a new element agrees with the standard. */
  lemma NewNameModels(parser: NsParser, s: Setting, w: World, before: seq<Decl>, scopes: seq<Scope>, now: seq<Decl>,
                      name: Octets, decls: seq<(Prefix, Octets)>, p: Prefix?)
    requires parser.sep == s.sep && parser.triplets == s.triplets && Models(s, w.open, before, scopes)
    requires FirstRefusal(decls).None? && parser.DeclaresAll(before, now, decls)
    ensures NewName(s, w, name, decls, p) == parser.NameFor(now, name, p, s.default)
  {
    hide Declared, Lookup, BoundText, Plain;
    DeclaredPlain(parser, s, before, now, decls);
    NameModels(parser, s, now, name, p);
  }

  lemma EndModels(s: Setting, open: seq<Open>, trail: seq<Decl>, scopes: seq<Scope>)
    requires Models(s, open, trail, scopes) && open != []
    ensures var last := scopes[|scopes| - 1];
            && last.raw == open[|open| - 1].raw && last.name == open[|open| - 1].name && last.start <= |trail|
            && Models(s, open[..|open| - 1], trail[..last.start], scopes[..|scopes| - 1])
  {
  }

  /** The prefixes of an event are known, and its names are without terminators. */
  ghost predicate Proper(e: Event, prefixes: set<Prefix>) {
    e.StartTag? || e.EmptyTag? ==>
      && 0 !in e.name && (e.prefix != null ==> e.prefix in prefixes && 0x3A in e.name)
      && forall k :: 0 <= k < |e.decls| ==> e.decls[k].0 in prefixes
  }

  /** The parser between two tags. */
  ghost predicate Agrees(parser: NsParser, s: Setting, open: seq<Open>)
    reads parser, parser.binds, parser.tags, parser.prefixes`binding, parser.Uris(), parser.Bufs(), parser.tagStack
  {
    && s.sep == parser.sep && s.triplets == parser.triplets && s.default in parser.prefixes
    && parser.Inv() && parser.Settled() && Models(s, open, parser.trail, parser.scopes)
  }

  /** A start tag. The name stands in its buffer when the handler is called. */
  method DoStart(parser: NsParser, e: Event, ghost s: Setting, ghost w: World, default: Prefix)
    returns (failed: bool, ghost calls: seq<Call>)
    requires Agrees(parser, s, w.open) && !w.failed && Proper(e, parser.prefixes) && e.StartTag? && default == s.default
    modifies parser, parser.binds, parser.prefixes`binding, parser.tags, parser.tagStack, parser.Uris(), parser.Bufs()
    ensures failed == Step(s, w, e).failed && w.calls + calls == Step(s, w, e).calls
    ensures !failed ==> Agrees(parser, s, Step(s, w, e).open)
    ensures parser.GrowsAll() && parser.prefixes == old(parser.prefixes)
  {
    hide NsParser.Inv, NsParser.Settled, Models, NewName, NsParser.NameFor, FirstRefusal, NsParser.DeclaresAll, Declared;
    hide NsParser.GrowsAll, NsParser.Uris, NsParser.Bufs;
    calls := [];
    ghost var before, scopes := parser.trail, parser.scopes;
    var error, t := parser.StartElement(e.name, e.raw, e.decls, e.prefix, default);
    failed := error.Some?;
    if FirstRefusal(e.decls).None? {
      NewNameModels(parser, s, w, before, scopes, parser.trail, e.name, e.decls, e.prefix);
    } else {
      assert NewName(s, w, e.name, e.decls, e.prefix).None? by { RefusedName(s, w, e.name, e.decls, e.prefix); }
    }
    if !failed {
      calls := [StartCall(t.str[..|t.started|])];
      StartModels(parser, s, w.open, before, scopes, parser.trail, e.decls, t.started, e.raw);
    }
  }

  lemma RefusedName(s: Setting, w: World, name: Octets, decls: seq<(Prefix, Octets)>, p: Prefix?)
    requires FirstRefusal(decls).Some?
    ensures NewName(s, w, name, decls, p).None?
  {
  }

  /** An empty-element tag: both handlers are called with the same buffer. */
  method DoEmpty(parser: NsParser, e: Event, ghost s: Setting, ghost w: World, default: Prefix)
    returns (failed: bool, ghost calls: seq<Call>)
    requires Agrees(parser, s, w.open) && !w.failed && Proper(e, parser.prefixes) && e.EmptyTag? && default == s.default
    modifies parser, parser.binds, parser.prefixes`binding, parser.tags, parser.tagStack, parser.Uris(), parser.Bufs()
    ensures failed == Step(s, w, e).failed && w.calls + calls == Step(s, w, e).calls
    ensures !failed ==> Agrees(parser, s, Step(s, w, e).open)
    ensures parser.GrowsAll() && parser.prefixes == old(parser.prefixes)
  {
    hide NsParser.Inv, NsParser.Settled, Models, NewName, NsParser.NameFor, FirstRefusal, NsParser.DeclaresAll, Declared;
    hide NsParser.GrowsAll, NsParser.Uris, NsParser.Bufs;
    calls := [];
    ghost var before, scopes := parser.trail, parser.scopes;
    var error, t, inner := parser.EmptyElement(e.name, e.raw, e.decls, e.prefix, default);
    failed := error.Some?;
    if FirstRefusal(e.decls).None? {
      NewNameModels(parser, s, w, before, scopes, inner, e.name, e.decls, e.prefix);
    } else {
      RefusedName(s, w, e.name, e.decls, e.prefix);
    }
    if !failed {
      calls := [StartCall(t.str[..|t.started|]), EndCall(t.str[..|t.started|])];
    }
  }

  /** An end tag; outside all elements it is refused. */
  method DoEnd(parser: NsParser, e: Event, ghost s: Setting, ghost w: World) returns (failed: bool, ghost calls: seq<Call>)
    requires Agrees(parser, s, w.open) && !w.failed && e.EndTag?
    modifies parser, parser.binds, parser.prefixes`binding, parser.tags, parser.tagStack, parser.Uris(), parser.Bufs()
    ensures failed == Step(s, w, e).failed && w.calls + calls == Step(s, w, e).calls
    ensures !failed ==> Agrees(parser, s, Step(s, w, e).open)
    ensures parser.GrowsAll() && parser.prefixes == old(parser.prefixes)
  {
    hide NsParser.Inv;
    calls := [];
    if parser.tagStack == [] {
      return true, [];
    }
    EndModels(s, w.open, parser.trail, parser.scopes);
    ghost var scope := parser.scopes[|parser.scopes| - 1];
    var name;
    failed, name := parser.EndElement(e.raw);
    if !failed {
      calls := [EndCall(name[..|scope.name|])];
    }
  }

  /** One event, and the calls that it makes. */
  method Perform(parser: NsParser, e: Event, ghost s: Setting, ghost w: World, default: Prefix)
    returns (failed: bool, ghost calls: seq<Call>)
    requires Agrees(parser, s, w.open) && !w.failed && Proper(e, parser.prefixes) && default == s.default
    modifies parser, parser.binds, parser.prefixes`binding, parser.tags, parser.tagStack, parser.Uris(), parser.Bufs()
    ensures failed == Step(s, w, e).failed && w.calls + calls == Step(s, w, e).calls
    ensures !failed ==> Agrees(parser, s, Step(s, w, e).open)
    ensures parser.GrowsAll() && parser.prefixes == old(parser.prefixes)
  {
    hide NsParser.Inv, NsParser.GrowsAll, NsParser.Uris, NsParser.Bufs, NsParser.Settled, Models, NewName;
    match e
    case StartTag(_, _, _, _) => failed, calls := DoStart(parser, e, s, w, default);
    case EmptyTag(_, _, _, _) => failed, calls := DoEmpty(parser, e, s, w, default);
    case EndTag(_) => failed, calls := DoEnd(parser, e, s, w);
    case BufferEnd =>
      parser.StoreRawNames();
      failed, calls := false, [];
  }

  /** All that a parser may write to. */
  ghost function Repr(parser: NsParser): set<object>
    reads parser, parser.binds`uri, parser.tags`buf
  {
    {parser} + parser.binds + parser.tags + parser.prefixes + parser.Uris() + parser.Bufs()
  }

  method Next(parser: NsParser, e: Event, ghost s: Setting, ghost w: World, default: Prefix)
    returns (failed: bool, ghost calls: seq<Call>)
    requires Agrees(parser, s, w.open) && !w.failed && Proper(e, parser.prefixes) && default == s.default
    modifies Repr(parser)
    ensures failed == Step(s, w, e).failed && w.calls + calls == Step(s, w, e).calls
    ensures !failed ==> Agrees(parser, s, Step(s, w, e).open)
    ensures forall o :: o in Repr(parser) ==> o in old(Repr(parser)) || fresh(o)
    ensures parser in Repr(parser) && parser.prefixes == old(parser.prefixes)
  {
    hide Agrees, Step, Proper;
    StackInTags(parser, s, w.open);
    failed, calls := Perform(parser, e, s, w, default);
  }

  /** Events on a parser that agrees with the standard: it goes on agreeing. */
  method RunOn(parser: NsParser, events: seq<Event>, default: Prefix, ghost s: Setting, ghost w: World)
    returns (failed: bool, ghost calls: seq<Call>)
    requires Agrees(parser, s, w.open) && !w.failed && default == s.default
    requires forall k :: 0 <= k < |events| ==> Proper(events[k], parser.prefixes)
    modifies Repr(parser)
    ensures var v := Steps(s, w, events);
            failed == v.failed && w.calls + calls == v.calls && (!failed ==> Agrees(parser, s, v.open))
    ensures forall o :: o in Repr(parser) ==> o in old(Repr(parser)) || fresh(o)
    ensures parser.prefixes == old(parser.prefixes)
  {
    hide Step, Steps, Agrees, Proper, Repr;
    BeginSteps(s, w, events);
    failed, calls := false, [];
    for k := 0 to |events|
      invariant (forall o :: o in Repr(parser) ==> o in old(Repr(parser)) || fresh(o))
      invariant parser.prefixes == old(parser.prefixes)
      invariant !failed && !Steps(s, w, events[..k]).failed && w.calls + calls == Steps(s, w, events[..k]).calls
      invariant Agrees(parser, s, Steps(s, w, events[..k]).open)
    {
      ghost var more;
      StepsMore(s, w, events, k);
      failed, more := Next(parser, events[k], s, Steps(s, w, events[..k]), default);
      calls := calls + more;
      if failed {
        FailedStays(s, w, events, k + 1);
        return;
      }
    }
    assert events[..|events|] == events;
  }

  /**
   * Any run of tags on a parser with no open elements: the handlers are called with the names that the standard
   * demands, and between the tags every prefix is bound to the text of its innermost declaration.
   */
  method Run(parser: NsParser, events: seq<Event>, default: Prefix) returns (failed: bool, ghost calls: seq<Call>)
    requires parser.Inv() && parser.Settled() && parser.tagStack == [] && default in parser.prefixes
    requires forall k :: 0 <= k < |events| ==> Proper(events[k], parser.prefixes)
    modifies Repr(parser)
    ensures var s := Setting(parser.sep, parser.triplets, default, Plain(old(parser.trail)));
            var w := Steps(s, BEGIN, events);
            && failed == w.failed && calls == w.calls
            && (!failed ==> Agrees(parser, s, w.open))
    ensures parser.prefixes == old(parser.prefixes)
  {
    ghost var s := Setting(parser.sep, parser.triplets, default, Plain(parser.trail));
    hide NsParser.Inv, NsParser.Settled, Steps, Agrees, Proper, Plain, Repr;
    BeginAgrees(parser, s);
    failed, calls := RunOn(parser, events, default, s, BEGIN);
  }

  /** The text that a prefix is bound to now. */
  ghost function TextOf(p: Prefix): Option<Octets>
    reads p, p.binding, if p.binding == null then {} else {p.binding.uri}
  {
    if p.binding == null || p.binding.uriLen > p.binding.uri.Length then None
    else Some(p.binding.uri[..p.binding.uriLen])
  }

  /** An element with all that is inside it: afterwards every prefix is bound to the text that it had before. */
  method RunElement(parser: NsParser, start: Event, inner: seq<Event>, end: Event, default: Prefix,
                    ghost s: Setting, ghost w: World) returns (failed: bool)
    requires Agrees(parser, s, w.open) && !w.failed && default == s.default && start.StartTag? && end.EndTag?
    requires Proper(start, parser.prefixes) && forall k :: 0 <= k < |inner| ==> Proper(inner[k], parser.prefixes)
    modifies Repr(parser)
    ensures failed == Step(s, Steps(s, Step(s, w, start), inner), end).failed
    ensures parser.prefixes == old(parser.prefixes)
    ensures !failed && Encloses(s, w, start, inner) ==>
              Agrees(parser, s, w.open) && forall p :: p in parser.prefixes ==> TextOf(p) == old(TextOf(p))
  {
    hide Step, Steps, Agrees, Proper, Repr, Encloses, TextOf;
    AllTexts(parser, s, w.open);
    ghost var calls;
    failed, calls := Next(parser, start, s, w, default);
    if failed {
      FailedForever(s, Step(s, w, start), inner);
      StepFailed(s, Steps(s, Step(s, w, start), inner), end);
      return;
    }
    failed, calls := RunOn(parser, inner, default, s, Step(s, w, start));
    ghost var after := Steps(s, Step(s, w, start), inner);
    if failed {
      StepFailed(s, after, end);
      return;
    }
    EndIsProper(end, parser.prefixes);
    failed, calls := Next(parser, end, s, after, default);
    if !failed && Encloses(s, w, start, inner) {
      ScopeRestored(s, w, start, inner, end);
      AllTexts(parser, s, w.open);
    }
  }

  lemma EndIsProper(e: Event, prefixes: set<Prefix>)
    requires e.EndTag?
    ensures Proper(e, prefixes)
  {
  }

  lemma StepFailed(s: Setting, w: World, e: Event)
    requires w.failed
    ensures Step(s, w, e) == w
  {
  }

  lemma {:induction false} FailedForever(s: Setting, w: World, es: seq<Event>)
    requires w.failed
    ensures Steps(s, w, es) == w
    decreases |es|
  {
    hide Step;
    if es != [] {
      FailedForever(s, w, es[..|es| - 1]);
      StepFailed(s, w, es[|es| - 1]);
    }
  }

  lemma AllTexts(parser: NsParser, s: Setting, open: seq<Open>)
    requires Agrees(parser, s, open)
    ensures forall p :: p in parser.prefixes ==> TextOf(p) == Lookup(Env(s.inherited, open), p)
  {
    hide Agrees, Lookup, Env;
    forall p | p in parser.prefixes ensures TextOf(p) == Lookup(Env(s.inherited, open), p) {
      BindingsAgree(parser, s, open, p);
    }
  }

  lemma BeginSteps(s: Setting, w: World, es: seq<Event>)
    ensures Steps(s, w, es[..0]) == w
  {
  }

  lemma StepsMore(s: Setting, w: World, es: seq<Event>, k: nat)
    requires k < |es|
    ensures Steps(s, w, es[..k + 1]) == Step(s, Steps(s, w, es[..k]), es[k])
  {
    hide Step;
    assert es[..k + 1][..k] == es[..k];
  }

  lemma BeginAgrees(parser: NsParser, s: Setting)
    requires parser.Inv() && parser.Settled() && parser.tagStack == [] && s.default in parser.prefixes
    requires s.sep == parser.sep && s.triplets == parser.triplets && s.inherited == Plain(parser.trail)
    ensures Agrees(parser, s, [])
  {
    hide NsParser.Inv;
  }

  lemma StackInTags(parser: NsParser, s: Setting, open: seq<Open>)
    requires Agrees(parser, s, open)
    ensures forall i :: 0 <= i < |parser.tagStack| ==> parser.tagStack[i] in parser.tags
  {
    hide NsParser.Inv;
    parser.TagsApart();
  }

  lemma {:induction false} FailedStays(s: Setting, w: World, es: seq<Event>, k: nat)
    requires k <= |es| && Steps(s, w, es[..k]).failed
    ensures Steps(s, w, es) == Steps(s, w, es[..k])
    decreases |es| - k
  {
    if k == |es| {
      assert es[..k] == es;
    } else {
      assert es[..k + 1][..k] == es[..k];
      FailedStays(s, w, es, k + 1);
    }
  }

  /** What a run leaves behind: each prefix is bound, to the text in the buffer of its binding, as the standard says. */
  lemma BindingsAgree(parser: NsParser, s: Setting, open: seq<Open>, p: Prefix)
    requires Agrees(parser, s, open) && p in parser.prefixes
    ensures match Lookup(Env(s.inherited, open), p)
            case None => p.binding == null
            case Some(text) =>
              p.binding != null && p.binding.uriLen == |text| <= p.binding.uri.Length && p.binding.uri[..|text|] == text
  {
    hide Models, Env, NsParser.Settled;
    ModelsTrail(s, open, parser.trail, parser.scopes);
    PlainLookup(parser.trail, p);
    parser.BoundTexts(p);
    if p.binding != null {
      var u := parser.WhereBound(p);
      TextAt(parser.trail, p, u);
      parser.HoldsAt(u);
    }
  }

  lemma ModelsTrail(s: Setting, open: seq<Open>, trail: seq<Decl>, scopes: seq<Scope>)
    requires Models(s, open, trail, scopes)
    ensures Plain(trail) == Env(s.inherited, open)
  {
  }
}
