/** The context of an external entity, printed for the application and read back by the child parser. */
module ContextString {
  import opened Bytes
  import opened Common
  import opened Environment

  const CONTEXT_SEP: byte := 0x0C
  const EQUALS: byte := 0x3D

  /** An entry of a context: a binding of a prefix (none is the default), or an open entity. */
  datatype Item = Bind(prefix: Option<Octets>, uri: Octets) | OpenEntity(name: Octets)

  function TextOf(item: Item): Octets {
    match item
    case Bind(prefix, uri) => (if prefix.Some? then prefix.value else []) + [EQUALS] + uri
    case OpenEntity(name) => name
  }

  /** The entries with separators between them. */
  function Join(items: seq<Item>): Octets {
    if items == [] then [] else
      Join(items[..|items| - 1]) + (if |items| > 1 then [CONTEXT_SEP] else []) + TextOf(items[|items| - 1])
  }

  // ----- reading

  /** The position of a byte, or the length. */
  function Find(s: Octets, c: byte): (n: nat)
    ensures n <= |s| && c !in s[..n] && (n < |s| ==> s[n] == c)
  {
    if s == [] || s[0] == c then 0 else
      var n := 1 + Find(s[1..], c);
      assert s[..n] == [s[0]] + s[1..][..n - 1];
      n
  }

  lemma FindIs(s: Octets, c: byte, n: nat)
    requires n <= |s| && c !in s[..n] && (n < |s| ==> s[n] == c)
    ensures Find(s, c) == n
  {
  }

  function Classified(s: Octets): Item {
    var n := Find(s, EQUALS);
    if n == |s| then OpenEntity(s) else Bind(if n == 0 then None else Some(s[..n]), s[n + 1..])
  }

  function Parsed(s: Octets): seq<Item>
    decreases |s|
  {
    if s == [] then [] else
      var n := Find(s, CONTEXT_SEP);
      [Classified(s[..n])] + if n == |s| then [] else Parsed(s[n + 1..])
  }

  // ----- what the child parser knows

  datatype Env = Env(default: Option<Octets>, bindings: map<Octets, Octets>, open: set<Octets>)

  const NOTHING := Env(None, map[], {})

  /** One entry: none if the binding is refused. An entity that is not declared is passed over. */
  function Take(env: Env, item: Item, entities: set<Octets>): Option<Env> {
    match item
    case OpenEntity(name) => Some(if name in entities then env.(open := env.open + {name}) else env)
    case Bind(prefix, uri) =>
      if Refusal(prefix, uri).Some? then None
      else if prefix.Some? then Some(env.(bindings := env.bindings[prefix.value := uri]))
      else Some(env.(default := if uri == [] then None else Some(uri)))
  }

  function TakeAll(env: Env, items: seq<Item>, entities: set<Octets>): Option<Env>
    decreases |items|
  {
    if items == [] then Some(env) else
      var next := Take(env, items[0], entities);
      if next.None? then None else TakeAll(next.value, items[1..], entities)
  }

  // ----- there and back

  predicate PlainName(name: Octets) {
    name != [] && CONTEXT_SEP !in name && EQUALS !in name && 0 !in name
  }

  predicate PlainUri(uri: Octets) {
    CONTEXT_SEP !in uri && 0 !in uri
  }

  predicate Plain(item: Item) {
    match item
    case Bind(prefix, uri) => (prefix.Some? ==> PlainName(prefix.value)) && PlainUri(uri)
    case OpenEntity(name) => PlainName(name)
  }

  lemma ClassifiedBack(item: Item)
    requires Plain(item)
    ensures Classified(TextOf(item)) == item && CONTEXT_SEP !in TextOf(item) && TextOf(item) != []
  {
    var s := TextOf(item);
    match item
    case OpenEntity(name) =>
      assert s[..|s|] == s;
      FindIs(s, EQUALS, |s|);
    case Bind(prefix, uri) =>
      var p := if prefix.Some? then prefix.value else [];
      assert s[..|p|] == p && s[|p| + 1..] == uri;
      FindIs(s, EQUALS, |p|);
  }

  lemma JoinLast(items: seq<Item>, last: Item)
    ensures Join(items + [last]) == Join(items) + (if items != [] then [CONTEXT_SEP] else []) + TextOf(last)
  {
  }

  lemma {:induction false} JoinFront(item: Item, items: seq<Item>)
    ensures Join([item] + items) == TextOf(item) + if items == [] then [] else [CONTEXT_SEP] + Join(items)
    decreases |items|
  {
    hide Join, TextOf;
    JoinLast([], item);
    JoinNone();
    assert [] + [item] == [item];
    if items == [] {
      assert [item] + items == [item];
    } else {
      var front, last := items[..|items| - 1], items[|items| - 1];
      JoinFront(item, front);
      JoinLast([item] + front, last);
      JoinLast(front, last);
      assert [item] + items == [item] + front + [last] && items == front + [last];
    }
  }

  lemma JoinNone()
    ensures Join([]) == []
  {
  }

  /** Reading gives back what was printed. */
  lemma {:induction false} ParsedBack(items: seq<Item>)
    requires forall k :: 0 <= k < |items| ==> Plain(items[k])
    ensures Parsed(Join(items)) == items
    decreases |items|
  {
    hide Join, TextOf, Classified, Find, Plain;
    JoinNone();
    if items != [] {
      var first, rest := items[0], items[1..];
      assert items == [first] + rest;
      JoinFront(first, rest);
      ClassifiedBack(first);
      var s, t := Join(items), TextOf(first);
      ParsedBack(rest);
      if rest == [] {
        ParsedOne(s, t);
      } else {
        JoinedIsLonger(rest);
        ParsedMore(s, t, Join(rest));
      }
    }
  }

  lemma ParsedOne(s: Octets, t: Octets)
    requires s == t && t != [] && CONTEXT_SEP !in t
    ensures Parsed(s) == [Classified(t)]
  {
    hide Classified, Find;
    assert s[..|t|] == t;
    FindIs(s, CONTEXT_SEP, |t|);
  }

  lemma ParsedMore(s: Octets, t: Octets, rest: Octets)
    requires s == t + ([CONTEXT_SEP] + rest) && CONTEXT_SEP !in t
    ensures Parsed(s) == [Classified(t)] + Parsed(rest)
  {
    hide Classified, Find;
    assert s[..|t|] == t && s[|t| + 1..] == rest;
    FindIs(s, CONTEXT_SEP, |t|);
  }

  lemma JoinedIsLonger(items: seq<Item>)
    requires items != [] && forall k :: 0 <= k < |items| ==> Plain(items[k])
    ensures Join(items) != []
  {
  }

  // ----- printing

  /** A prefix or an entity in the order of its table; a URI is kept with the separator, if there is one. */
  datatype PrefixEntry = PrefixEntry(name: Octets, uri: Option<Octets>)
  datatype EntityEntry = EntityEntry(name: Octets, open: bool)

  /** The URI without the separator. */
  function Bare(uri: Octets, separated: bool): Octets {
    if separated && uri != [] then uri[..|uri| - 1] else uri
  }

  function BoundItems(prefixes: seq<PrefixEntry>, separated: bool): seq<Item> {
    if prefixes == [] then [] else
      var last := prefixes[|prefixes| - 1];
      BoundItems(prefixes[..|prefixes| - 1], separated)
      + if last.uri.Some? then [Bind(Some(last.name), Bare(last.uri.value, separated))] else []
  }

  function OpenItems(entities: seq<EntityEntry>): seq<Item> {
    if entities == [] then [] else
      var last := entities[|entities| - 1];
      OpenItems(entities[..|entities| - 1]) + if last.open then [OpenEntity(last.name)] else []
  }

  function DefaultItem(default: Option<Octets>, separated: bool): seq<Item> {
    if default.Some? then [Bind(None, Bare(default.value, separated))] else []
  }

  /** The entries of a context: the default binding, the bound prefixes, the open entities. */
  function Printed(default: Option<Octets>, prefixes: seq<PrefixEntry>, entities: seq<EntityEntry>, separated: bool):
    seq<Item>
  {
    DefaultItem(default, separated) + BoundItems(prefixes, separated) + OpenItems(entities)
  }

  /** tempPool, while a context is printed. */
  class Printer {
    var pool: Octets
    var needSep: bool

    constructor ()
      ensures pool == [] && !needSep
    {
      pool, needSep := [], false;
    }

    ghost predicate Holds(items: seq<Item>)
      reads this
    {
      pool == Join(items) && (needSep <==> items != [])
    }

    method Append(s: Octets)
      modifies this`pool
      ensures pool == old(pool) + s
    {
      for k := 0 to |s|
        invariant pool == old(pool) + s[..k]
      {
        assert s[..k + 1] == s[..k] + [s[k]];
        pool := pool + [s[k]];
      }
      assert s[..|s|] == s;
    }

    /** One binding; the default one comes first, with no name. */
    method PrintBinding(prefix: Option<Octets>, uri: Octets, separated: bool, ghost items: seq<Item>)
      requires Holds(items) && (prefix.None? ==> items == [])
      modifies this
      ensures Holds(items + [Bind(prefix, Bare(uri, separated))])
    {
      hide Join;
      JoinLast(items, Bind(prefix, Bare(uri, separated)));
      JoinNone();
      if needSep {
        Append([CONTEXT_SEP]);
      }
      if prefix.Some? {
        Append(prefix.value);
      }
      Append([EQUALS]);
      Append(Bare(uri, separated));
      needSep := true;
    }

    method PrintEntity(name: Octets, ghost items: seq<Item>)
      requires Holds(items)
      modifies this
      ensures Holds(items + [OpenEntity(name)])
    {
      hide Join;
      JoinLast(items, OpenEntity(name));
      JoinNone();
      if needSep {
        Append([CONTEXT_SEP]);
      }
      Append(name);
      needSep := true;
    }
  }

  /** getContext */
  method GetContext(default: Option<Octets>, prefixes: seq<PrefixEntry>, entities: seq<EntityEntry>, separated: bool)
    returns (context: Octets)
    ensures context == Join(Printed(default, prefixes, entities, separated))
  {
    hide Join;
    var printer := new Printer();
    JoinNone();
    ghost var items := DefaultItem(default, separated);
    if default.Some? {
      printer.PrintBinding(None, default.value, separated, []);
      assert [] + items == items;
    }
    assert items + BoundItems(prefixes[..0], separated) == items;
    for k := 0 to |prefixes|
      invariant printer.Holds(items + BoundItems(prefixes[..k], separated))
    {
      assert prefixes[..k + 1][..k] == prefixes[..k];
      if prefixes[k].uri.Some? {
        ghost var before := items + BoundItems(prefixes[..k], separated);
        printer.PrintBinding(Some(prefixes[k].name), prefixes[k].uri.value, separated, before);
        assert before + [Bind(Some(prefixes[k].name), Bare(prefixes[k].uri.value, separated))] ==
               items + BoundItems(prefixes[..k + 1], separated);
      } else {
        assert BoundItems(prefixes[..k + 1], separated) == BoundItems(prefixes[..k], separated);
      }
    }
    assert prefixes[..|prefixes|] == prefixes;
    items := items + BoundItems(prefixes, separated);
    assert items + OpenItems(entities[..0]) == items;
    for k := 0 to |entities|
      invariant printer.Holds(items + OpenItems(entities[..k]))
    {
      assert entities[..k + 1][..k] == entities[..k];
      if entities[k].open {
        ghost var before := items + OpenItems(entities[..k]);
        printer.PrintEntity(entities[k].name, before);
        assert before + [OpenEntity(entities[k].name)] == items + OpenItems(entities[..k + 1]);
      } else {
        assert OpenItems(entities[..k + 1]) == OpenItems(entities[..k]);
      }
    }
    assert entities[..|entities|] == entities;
    context := printer.pool;
  }

  // ----- reading, in place

  /** The parts of a child parser that setContext changes. */
  class Child {
    var default: Option<Octets>
    var bindings: map<Octets, Octets>
    var open: set<Octets>
    var tempPool: Octets
    const entities: set<Octets>

    constructor (entities: set<Octets>)
      ensures Known() == NOTHING && this.entities == entities && tempPool == []
    {
      default, bindings, open, tempPool := None, map[], {}, [];
      this.entities := entities;
    }

    function Known(): Env
      reads this`default, this`bindings, this`open
    {
      Env(default, bindings, open)
    }

    /** addBinding for an inherited binding. */
    method AddBinding(prefix: Option<Octets>, uri: Octets) returns (ok: bool)
      modifies this`default, this`bindings
      ensures match Take(old(Known()), Bind(prefix, uri), entities)
              case Some(env) => ok && Known() == env
              case None => !ok
    {
      var error := CheckBinding(prefix, uri);
      ok := error.None?;
      if ok {
        if prefix.Some? {
          bindings := bindings[prefix.value := uri];
        } else {
          default := if uri == [] then None else Some(uri);
        }
      }
    }

    /** The URI of a binding, up to the separator or the end. */
    method ReadUri(c: Octets, start: nat) returns (context: nat)
      requires start <= |c| && tempPool == []
      modifies this`tempPool
      ensures start <= context <= |c| && tempPool == c[start..context] && CONTEXT_SEP !in tempPool
      ensures context < |c| ==> c[context] == CONTEXT_SEP
    {
      context := start;
      while context < |c| && c[context] != CONTEXT_SEP
        invariant start <= context <= |c| && tempPool == c[start..context] && CONTEXT_SEP !in tempPool
      {
        tempPool := tempPool + [c[context]];
        context := context + 1;
        assert c[start..context] == c[start..context - 1] + [c[context - 1]];
      }
    }

    /** What the text from here on gives. */
    ghost function Rest(c: Octets, context: nat): Option<Env>
      requires context <= |c|
      reads this`default, this`bindings, this`open
    {
      TakeAll(Known(), Parsed(c[context..]), entities)
    }

    /** setContext */
    method SetContext(c: Octets) returns (ok: bool)
      requires tempPool == [] && 0 !in c
      modifies this
      ensures match TakeAll(old(Known()), Parsed(c), entities)
              case Some(env) => ok && Known() == env
              case None => !ok
    {
      hide Take, Parsed;
      var context: nat, s: nat := 0, 0;
      assert c[0..] == c && c[0..0] == [];
      while context < |c|
        invariant context <= s <= |c| && tempPool == c[context..s]
        invariant CONTEXT_SEP !in tempPool && EQUALS !in tempPool
        invariant Rest(c, context) == TakeAll(old(Known()), Parsed(c), entities)
        decreases |c| - s, |c| - context
      {
        if s == |c| || c[s] == CONTEXT_SEP {
          EntityChunk(c, context, s);
          if tempPool in entities {
            open := open + {tempPool};
          }
          tempPool := [];
          s := if s < |c| then s + 1 else s;
          context := s;
          assert c[context..s] == [];
        } else if c[s] == EQUALS {
          var prefix := if tempPool == [] then None else Some(tempPool);
          ghost var at := s;
          tempPool := [];
          ghost var from := context;
          context := ReadUri(c, s + 1);
          BindingChunk(c, from, at, context);
          ok := AddBinding(prefix, tempPool);
          if !ok {
            return;
          }
          tempPool := [];
          context := if context < |c| then context + 1 else context;
          s := context;
          assert c[context..s] == [];
        } else {
          SliceMore(c, context, s);
          tempPool := tempPool + [c[s]];
          s := s + 1;
        }
      }
      NothingLeft(c);
      ok := true;
    }

    lemma NothingLeft(c: Octets)
      ensures Rest(c, |c|) == Some(Known())
    {
    }

    /** A chunk without an equals sign is the name of an entity. */
    lemma EntityChunk(c: Octets, context: nat, s: nat)
      requires context <= s <= |c| && context < |c| && (s == |c| || c[s] == CONTEXT_SEP)
      requires CONTEXT_SEP !in c[context..s] && EQUALS !in c[context..s]
      ensures var name, next := c[context..s], if s < |c| then s + 1 else s;
              Rest(c, context) ==
              TakeAll(if name in entities then Known().(open := open + {name}) else Known(), Parsed(c[next..]), entities)
    {
      hide Parsed, Find;
      var name := c[context..s];
      assert name[..|name|] == name;
      FindIs(name, EQUALS, |name|);
      ChunkParsed(c, context, s);
      OneThenRest(Known(), OpenEntity(name), Parsed(c[if s < |c| then s + 1 else s..]), entities);
    }

    /** A chunk with an equals sign is a binding. */
    lemma BindingChunk(c: Octets, context: nat, at: nat, end: nat)
      requires context <= at < end <= |c| && c[at] == EQUALS && (end == |c| || c[end] == CONTEXT_SEP)
      requires CONTEXT_SEP !in c[context..at] && EQUALS !in c[context..at] && CONTEXT_SEP !in c[at + 1..end]
      ensures var item := Bind(if at == context then None else Some(c[context..at]), c[at + 1..end]);
              var now, next := Take(Known(), item, entities), if end < |c| then end + 1 else end;
              Rest(c, context) == if now.None? then None else TakeAll(now.value, Parsed(c[next..]), entities)
    {
      hide Take, Parsed, Classified, Find;
      var item := Bind(if at == context then None else Some(c[context..at]), c[at + 1..end]);
      ChunkClassified(c, context, at, end);
      ChunkParsed(c, context, end);
      OneThenRest(Known(), item, Parsed(c[if end < |c| then end + 1 else end..]), entities);
    }
  }

  lemma SliceMore(c: Octets, i: nat, j: nat)
    requires i <= j < |c|
    ensures c[i..j + 1] == c[i..j] + [c[j]]
  {
  }

  lemma ChunkClassified(c: Octets, context: nat, at: nat, end: nat)
    requires context <= at < end <= |c| && c[at] == EQUALS
    requires CONTEXT_SEP !in c[context..at] && EQUALS !in c[context..at] && CONTEXT_SEP !in c[at + 1..end]
    ensures CONTEXT_SEP !in c[context..end]
    ensures Classified(c[context..end]) == Bind(if at == context then None else Some(c[context..at]), c[at + 1..end])
  {
    hide Find;
    var chunk := c[context..end];
    assert chunk == c[context..at] + [EQUALS] + c[at + 1..end];
    assert chunk[..at - context] == c[context..at] && chunk[at - context + 1..] == c[at + 1..end];
    FindIs(chunk, EQUALS, at - context);
  }

  /** A chunk, and what follows its separator. */
  lemma ChunkParsed(c: Octets, context: nat, end: nat)
    requires context <= end <= |c| && context < |c| && (end == |c| || c[end] == CONTEXT_SEP)
    requires CONTEXT_SEP !in c[context..end]
    ensures Parsed(c[context..]) ==
            [Classified(c[context..end])] + Parsed(c[if end < |c| then end + 1 else end..])
  {
    hide Classified, Find;
    var t := c[context..];
    assert t[..end - context] == c[context..end];
    FindIs(t, CONTEXT_SEP, end - context);
    assert end < |c| ==> t[end - context + 1..] == c[end + 1..];
  }

  lemma OneThenRest(env: Env, item: Item, rest: seq<Item>, entities: set<Octets>)
    ensures TakeAll(env, [item] + rest, entities) ==
            var now := Take(env, item, entities);
            if now.None? then None else TakeAll(now.value, rest, entities)
  {
  }

  // ----- the child gets what the parent had

  /** The bindings of the prefixes that are bound. */
  function BoundMap(prefixes: seq<PrefixEntry>, separated: bool): map<Octets, Octets> {
    if prefixes == [] then map[] else
      var front, last := BoundMap(prefixes[..|prefixes| - 1], separated), prefixes[|prefixes| - 1];
      if last.uri.Some? then front[last.name := Bare(last.uri.value, separated)] else front
  }

  function OpenNames(entities: seq<EntityEntry>): set<Octets> {
    set k | 0 <= k < |entities| && entities[k].open :: entities[k].name
  }

  /** Names are without separators, URIs without a formfeed, and the bindings were accepted when they were made. */
  predicate Printable(default: Option<Octets>, prefixes: seq<PrefixEntry>, entities: seq<EntityEntry>, separated: bool) {
    && (default.Some? ==> PlainUri(Bare(default.value, separated)) && Bare(default.value, separated) != []
                          && Refusal(None, Bare(default.value, separated)).None?)
    && (forall k :: 0 <= k < |prefixes| ==> GoodEntry(prefixes[k], separated))
    && (forall k :: 0 <= k < |entities| ==> PlainName(entities[k].name))
  }

  predicate GoodEntry(entry: PrefixEntry, separated: bool) {
    PlainName(entry.name) && (entry.uri.Some? ==> GoodBinding(entry.name, Bare(entry.uri.value, separated)))
  }

  predicate GoodBinding(name: Octets, uri: Octets) {
    PlainUri(uri) && Refusal(Some(name), uri).None?
  }

  lemma {:induction false} TakeAllAppend(env: Env, a: seq<Item>, b: seq<Item>, entities: set<Octets>)
    ensures TakeAll(env, a + b, entities) ==
            var now := TakeAll(env, a, entities); if now.None? then None else TakeAll(now.value, b, entities)
    decreases |a|
  {
    hide Take;
    if a == [] {
      assert a + b == b;
    } else {
      assert (a + b)[1..] == a[1..] + b;
      var next := Take(env, a[0], entities);
      if next.Some? {
        TakeAllAppend(next.value, a[1..], b, entities);
      }
    }
  }

  lemma TakeOne(env: Env, item: Item, entities: set<Octets>)
    ensures TakeAll(env, [item], entities) == Take(env, item, entities)
  {
  }

  lemma {:induction false} PrefixesTaken(env: Env, prefixes: seq<PrefixEntry>, separated: bool, entities: set<Octets>)
    requires env.bindings == map[]
    requires forall k :: 0 <= k < |prefixes| ==> GoodEntry(prefixes[k], separated)
    ensures TakeAll(env, BoundItems(prefixes, separated), entities) ==
            Some(env.(bindings := BoundMap(prefixes, separated)))
    decreases |prefixes|
  {
    hide Refusal, PlainUri, Bare;
    if prefixes != [] {
      var front, last := prefixes[..|prefixes| - 1], prefixes[|prefixes| - 1];
      PrefixesTaken(env, front, separated, entities);
      var mid := env.(bindings := BoundMap(front, separated));
      if last.uri.Some? {
        var item := Bind(Some(last.name), Bare(last.uri.value, separated));
        assert GoodEntry(last, separated);
        TakeAllAppend(env, BoundItems(front, separated), [item], entities);
        TakeOne(mid, item, entities);
      } else {
        assert BoundItems(prefixes, separated) == BoundItems(front, separated);
      }
    }
  }

  lemma {:induction false} EntitiesTaken(env: Env, list: seq<EntityEntry>, entities: set<Octets>)
    requires env.open == {} && forall k :: 0 <= k < |list| ==> list[k].name in entities
    ensures TakeAll(env, OpenItems(list), entities) == Some(env.(open := OpenNames(list)))
    decreases |list|
  {
    if list == [] {
      assert OpenNames(list) == {};
    } else {
      var front, last := list[..|list| - 1], list[|list| - 1];
      EntitiesTaken(env, front, entities);
      OpenOneMore(list);
      if last.open {
        TakeAllAppend(env, OpenItems(front), [OpenEntity(last.name)], entities);
        TakeOne(env.(open := OpenNames(front)), OpenEntity(last.name), entities);
      } else {
        assert OpenItems(list) == OpenItems(front) && OpenNames(list) == OpenNames(front);
      }
    }
  }

  lemma OpenOneMore(list: seq<EntityEntry>)
    requires list != []
    ensures var front, last := list[..|list| - 1], list[|list| - 1];
            OpenNames(list) == OpenNames(front) + if last.open then {last.name} else {}
  {
  }

  lemma {:induction false} PrintedArePlain(default: Option<Octets>, prefixes: seq<PrefixEntry>,
                                           entities: seq<EntityEntry>, separated: bool)
    requires Printable(default, prefixes, entities, separated)
    ensures forall k :: 0 <= k < |Printed(default, prefixes, entities, separated)| ==>
              Plain(Printed(default, prefixes, entities, separated)[k])
  {
    hide Refusal, PlainUri, PlainName, Bare;
    BoundPlain(prefixes, separated);
    OpenPlain(entities);
  }

  lemma {:induction false} BoundPlain(prefixes: seq<PrefixEntry>, separated: bool)
    requires forall k :: 0 <= k < |prefixes| ==> GoodEntry(prefixes[k], separated)
    ensures forall k :: 0 <= k < |BoundItems(prefixes, separated)| ==> Plain(BoundItems(prefixes, separated)[k])
    decreases |prefixes|
  {
    hide Refusal, PlainUri, PlainName, Bare;
    if prefixes != [] {
      BoundPlain(prefixes[..|prefixes| - 1], separated);
    }
  }

  lemma {:induction false} OpenPlain(entities: seq<EntityEntry>)
    requires forall k :: 0 <= k < |entities| ==> PlainName(entities[k].name)
    ensures forall k :: 0 <= k < |OpenItems(entities)| ==> Plain(OpenItems(entities)[k])
    decreases |entities|
  {
    hide PlainName;
    if entities != [] {
      OpenPlain(entities[..|entities| - 1]);
    }
  }

  /** setContext on the string of getContext: the same environment, and the same open entities. */
  lemma ContextRestored(default: Option<Octets>, prefixes: seq<PrefixEntry>, entities: seq<EntityEntry>,
                        separated: bool, declared: set<Octets>)
    requires Printable(default, prefixes, entities, separated)
    requires forall k :: 0 <= k < |entities| ==> entities[k].name in declared
    ensures TakeAll(NOTHING, Parsed(Join(Printed(default, prefixes, entities, separated))), declared) ==
            Some(Env(if default.Some? then Some(Bare(default.value, separated)) else None,
                     BoundMap(prefixes, separated), OpenNames(entities)))
  {
    hide Refusal, PlainUri, PlainName, Bare, Join, Parsed, BoundItems, OpenItems, BoundMap, OpenNames;
    var items := Printed(default, prefixes, entities, separated);
    PrintedArePlain(default, prefixes, entities, separated);
    ParsedBack(items);
    var d, b := DefaultItem(default, separated), BoundItems(prefixes, separated);
    var env := Env(if default.Some? then Some(Bare(default.value, separated)) else None, map[], {});
    if default.Some? {
      TakeOne(NOTHING, d[0], declared);
    }
    assert TakeAll(NOTHING, d, declared) == Some(env);
    TakeAllAppend(NOTHING, d + b, OpenItems(entities), declared);
    TakeAllAppend(NOTHING, d, b, declared);
    PrefixesTaken(env, prefixes, separated, declared);
    EntitiesTaken(env.(bindings := BoundMap(prefixes, separated)), entities, declared);
  }

  /** With distinct names, the bindings are those of the bound prefixes and no others. */
  lemma {:induction false} BoundMapIs(prefixes: seq<PrefixEntry>, separated: bool, name: Octets)
    requires forall i, j :: 0 <= i < j < |prefixes| ==> prefixes[i].name != prefixes[j].name
    ensures name in BoundMap(prefixes, separated) <==>
            exists k :: 0 <= k < |prefixes| && prefixes[k].name == name && prefixes[k].uri.Some?
    ensures forall k :: 0 <= k < |prefixes| && prefixes[k].name == name && prefixes[k].uri.Some? ==>
              name in BoundMap(prefixes, separated)
              && BoundMap(prefixes, separated)[name] == Bare(prefixes[k].uri.value, separated)
    decreases |prefixes|
  {
    hide Bare;
    if prefixes != [] {
      var front := prefixes[..|prefixes| - 1];
      BoundMapIs(front, separated, name);
      assert forall k :: 0 <= k < |front| ==> front[k] == prefixes[k];
    }
  }

  lemma {:induction false} NoTerminator(items: seq<Item>)
    requires forall k :: 0 <= k < |items| ==> Plain(items[k])
    ensures 0 !in Join(items)
    decreases |items|
  {
    if items != [] {
      NoTerminator(items[..|items| - 1]);
      assert Plain(items[|items| - 1]);
    }
  }

  /** A child parser gets the context of its parent, through the string. */
  method InheritContext(default: Option<Octets>, prefixes: seq<PrefixEntry>, entities: seq<EntityEntry>,
                        separated: bool, declared: set<Octets>) returns (child: Child)
    requires Printable(default, prefixes, entities, separated)
    requires forall k :: 0 <= k < |entities| ==> entities[k].name in declared
    ensures child.default == (if default.Some? then Some(Bare(default.value, separated)) else None)
    ensures child.bindings == BoundMap(prefixes, separated) && child.open == OpenNames(entities)
  {
    hide Printable;
    var context := GetContext(default, prefixes, entities, separated);
    PrintedArePlain(default, prefixes, entities, separated);
    NoTerminator(Printed(default, prefixes, entities, separated));
    ContextRestored(default, prefixes, entities, separated, declared);
    child := new Child(declared);
    var ok := child.SetContext(context);
  }

  lemma JoinThree(a: Item, b: Item, c: Item)
    ensures Join([a, b, c]) == TextOf(a) + [0x0C] + TextOf(b) + [0x0C] + TextOf(c)
  {
    hide TextOf, Join;
    JoinLast([], a);
    JoinLast([a], b);
    JoinLast([a, b], c);
    JoinNone();
    assert [] + [a] == [a] && [a] + [b] == [a, b] && [a, b] + [c] == [a, b, c];
  }

  /** The bytes of a context: an equals sign in each binding, a formfeed between two entries. */
  lemma ContextBytes(u: Octets, p: Octets, v: Octets, n: Octets)
    ensures Join([Bind(None, u), Bind(Some(p), v), OpenEntity(n)]) ==
            (Ascii("=") + u) + [0x0C] + (p + Ascii("=") + v) + [0x0C] + n
  {
    hide Join;
    JoinThree(Bind(None, u), Bind(Some(p), v), OpenEntity(n));
    assert Ascii("=") == [0x3D];
  }

  /** A URI is printed without the separator that follows it in its binding. */
  lemma BareMeans(uri: Octets, sep: byte)
    ensures Bare(uri + [sep], true) == uri && Bare(uri, false) == uri && Bare([], true) == []
  {
  }
}
