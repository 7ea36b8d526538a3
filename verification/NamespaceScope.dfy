/** Namespace scopes and element names kept in shared URI buffers. */
module NamespaceScope {
  import opened Bytes
  import opened Common
  import opened Environment

  const SPARE := 24

  /** PREFIX; the default prefix has no name. */
  class Prefix {
    const name: Option<Octets>
    var binding: Binding?

    constructor (name: Option<Octets>)
      ensures this.name == name && binding == null
    {
      this.name := name;
      binding := null;
    }
  }

  /** BINDING; uri is a buffer that element names are built in, after the uriLen bytes of the URI. */
  class Binding {
    var prefix: Prefix
    var prev: Binding?
    var uri: array<byte>
    var uriLen: nat

    constructor (prefix: Prefix, size: nat)
      ensures this.prefix == prefix && prev == null && fresh(uri) && uri.Length == size && uriLen == 0
    {
      this.prefix := prefix;
      prev := null;
      uri := new byte[size];
      uriLen := 0;
    }
  }

  /** A declaration that is in scope: who holds it, for which prefix, and the URI with its separator. */
  datatype Decl = Decl(b: Binding, prefix: Prefix, undeclares: bool, text: Octets)

  /** An open element: the name its handlers get, its raw name, and where its declarations begin. */
  datatype Scope = Scope(name: Octets, raw: Octets, start: nat)

  /** The innermost declaration of a prefix. */
  ghost function Innermost(trail: seq<Decl>, p: Prefix): Binding? {
    if trail == [] then null
    else if trail[|trail| - 1].prefix == p then
      if trail[|trail| - 1].undeclares then null else trail[|trail| - 1].b
    else Innermost(trail[..|trail| - 1], p)
  }

  /** The URI that a prefix is bound to by the innermost declaration, if that does not undeclare it. */
  ghost function BoundText(trail: seq<Decl>, p: Prefix): Option<Octets> {
    if trail == [] then None
    else if trail[|trail| - 1].prefix == p then
      if trail[|trail| - 1].undeclares then None else Some(trail[|trail| - 1].text)
    else BoundText(trail[..|trail| - 1], p)
  }

  /** The first declaration that is refused. */
  function FirstRefusal(decls: seq<(Prefix, Octets)>): Option<NsError> {
    if decls == [] then None
    else if Refusal(decls[0].0.name, decls[0].1).Some? then Refusal(decls[0].0.name, decls[0].1)
    else FirstRefusal(decls[1..])
  }

  /** Where the local part of a prefixed name begins. */
  function AfterColon(name: Octets): (n: nat)
    ensures n <= |name|
  {
    if name == [] then 0 else if name[0] == 0x3A then 1 else 1 + AfterColon(name[1..])
  }

  /** The local part follows the first colon. */
  lemma {:induction false} AfterFirstColon(q: Octets, local: Octets)
    requires 0x3A !in q
    ensures AfterColon(q + [0x3A] + local) == |q| + 1
    decreases |q|
  {
    var name := q + [0x3A] + local;
    if q != [] {
      assert name[1..] == q[1..] + [0x3A] + local;
      AfterFirstColon(q[1..], local);
    }
  }

  /** Each binding remembers what its prefix was bound to before. */
  ghost predicate Remembers(trail: seq<Decl>)
    reads (set d | d in trail :: d.b)`prev
  {
    forall k :: 0 <= k < |trail| ==> trail[k].b.prev == Innermost(trail[..k], trail[k].prefix)
  }

  ghost predicate Holding(trail: seq<Decl>, prefixes: set<Prefix>)
    reads (set d | d in trail :: d.b), (set d | d in trail :: d.b.uri)
  {
    && (forall k :: 0 <= k < |trail| ==> Holds(trail[k]) && trail[k].prefix in prefixes)
    && (forall i, j :: 0 <= i < j < |trail| ==> trail[i].b != trail[j].b)
  }

  ghost predicate Holds(d: Decl)
    reads d.b`prefix, d.b`uriLen, d.b`uri, d.b.uri
  {
    && d.b.prefix == d.prefix && d.b.uriLen == |d.text| <= d.b.uri.Length && d.b.uri[..|d.text|] == d.text
  }

  ghost predicate Current(trail: seq<Decl>, prefixes: set<Prefix>)
    reads prefixes`binding
  {
    forall p :: p in prefixes ==> p.binding == Innermost(trail, p)
  }

  // ----- lemmas about declarations

  lemma TrailTake(trail: seq<Decl>, d: Decl, p: Prefix)
    ensures Innermost(trail + [d], p) ==
            if d.prefix == p then (if d.undeclares then null else d.b) else Innermost(trail, p)
  {
  }

  /** TAG. The name is kept in buf; str points to buf, or to the URI buffer of the binding of its prefix. */
  class Tag {
    var bindings: seq<Binding>
    var str: array<byte>
    var local: Option<nat>
    var prefixName: Option<Octets>
    var strLen: nat
    var uriLen: nat
    var buf: array<byte>
    var rawStored: bool
    var raw: Octets
    var rawLen: nat
    /** The qualified name, the name given to the start-element handler, and the name as it stands in the document. */
    ghost var name: Octets
    ghost var started: Octets
    ghost var rawName: Octets
    /** The part of the trail that the element declared, and which declaration its name uses. */
    ghost var start: nat
    ghost var end: nat
    ghost var useAt: nat

    constructor ()
      ensures fresh(buf) && buf.Length == 32 && bindings == []
    {
      buf := new byte[32];
      str := buf;
      bindings, local, prefixName, strLen, uriLen := [], None, None, 0, 0;
      rawStored, raw, rawLen := false, [], 0;
      name, started, rawName, start, end, useAt := [], [], [], 0, 0, 0;
    }

    /** The name is made of the URI of a declaration and of the local part. */
    method Expand(at: nat, uriLen: nat, prefixName: Option<Octets>, ghost full: Octets, ghost u: nat)
      modifies this`local, this`uriLen, this`prefixName, this`started, this`useAt
      ensures local == Some(at) && this.uriLen == uriLen && this.prefixName == prefixName
      ensures started == full && useAt == u
    {
      local, this.uriLen, this.prefixName := Some(at), uriLen, prefixName;
      started, useAt := full, u;
    }

    method PointTo(name: array<byte>)
      modifies this`str
      ensures str == name
    {
      str := name;
    }

    /** The name is in the buffer; the raw name is still in the parse buffer. */
    method Begin(name: Octets, raw: Octets, ghost at: nat)
      modifies this
      ensures this.name == name && rawName == raw && buf == old(buf) && !rawStored
      ensures strLen == |name| && this.raw == raw && rawLen == |raw|
      ensures local.None? && str == buf && started == name && prefixName.None? && bindings == []
      ensures start == end == at
    {
      str, strLen, local, prefixName, bindings := buf, |name|, None, None, [];
      this.name, started := name, name;
      start, end := at, at;
      SetRaw(raw);
    }

    method SetRaw(raw: Octets)
      modifies this`raw, this`rawLen, this`rawStored, this`rawName
      ensures this.raw == rawName == raw && rawLen == |raw| && !rawStored
    {
      this.raw, rawLen, rawStored, rawName := raw, |raw|, false, raw;
    }
  }

  /** With triplets the prefix follows the local part. */
  function Suffix(sep: byte, triplets: bool, prefixName: Option<Octets>): Octets {
    if triplets && prefixName.Some? then [sep] + prefixName.value else []
  }

  /** The name in the buffer of the tag, and after it the raw name once that is stored. */
  ghost predicate Buffered(t: Tag)
    reads t`strLen, t`name, t`buf, t`rawLen, t`rawStored, t`raw, t`rawName, t.buf
  {
    && t.strLen == |t.name| < t.buf.Length && t.buf[..t.strLen] == t.name && t.buf[t.strLen] == 0 && 0 !in t.name
    && t.rawLen == |t.rawName|
    && (if t.rawStored then t.strLen + 1 + t.rawLen <= t.buf.Length
                            && t.buf[t.strLen + 1..t.strLen + 1 + t.rawLen] == t.rawName
        else t.raw == t.rawName)
  }

  lemma PrefixSame(a: Octets, b: Octets, n: nat)
    requires n < |a| && |a| <= |b| && b[..|a|] == a
    ensures b[..n] == a[..n] && b[n] == a[n]
  {
  }

  lemma NameLength(t: Tag)
    requires Buffered(t)
    ensures t.strLen == |t.name| < t.buf.Length && t.buf[..t.strLen] == t.name && t.buf[t.strLen] == 0
  {
  }

  lemma NoTerminator(t: Tag)
    requires Buffered(t)
    ensures 0 !in t.name
  {
  }

  lemma OwnsNothing(t: Tag, trail: seq<Decl>)
    requires t.start == t.end == |trail| && t.bindings == []
    ensures Owns(t, trail)
  {
  }

  lemma OwnsLess(t: Tag, was: seq<Decl>, bindings: seq<Binding>, now: seq<Decl>)
    requires t.start < |was| && |bindings| == |was| - t.start
    requires forall k :: 0 <= k < |bindings| ==> bindings[k] == was[t.start + k].b
    requires now == was[..|was| - 1] && t.bindings == bindings[..|bindings| - 1] && t.end == |now|
    ensures Owns(t, now)
  {
  }

  lemma RemembersLast(trail: seq<Decl>)
    requires trail != [] && Remembers(trail)
    ensures var d := trail[|trail| - 1]; d.b.prev == Innermost(trail[..|trail| - 1], d.prefix)
  {
  }

  lemma RemembersFront(trail: seq<Decl>)
    requires trail != [] && Remembers(trail)
    ensures Remembers(trail[..|trail| - 1])
  {
    hide Innermost;
    var front := trail[..|trail| - 1];
    forall k | 0 <= k < |front| ensures front[k].b.prev == Innermost(front[..k], front[k].prefix) {
      assert front[..k] == trail[..k];
    }
  }

  lemma HoldingFront(trail: seq<Decl>, prefixes: set<Prefix>)
    requires trail != [] && Holding(trail, prefixes)
    ensures Holding(trail[..|trail| - 1], prefixes)
    ensures forall k :: 0 <= k < |trail| - 1 ==> trail[k].b != trail[|trail| - 1].b
  {
  }

  lemma NamedFront(t: Tag, trail: seq<Decl>, sep: byte, triplets: bool)
    requires Named(t, trail, sep, triplets) && Owns(t, trail) && t.end < |trail|
    ensures Named(t, trail[..|trail| - 1], sep, triplets) && Owns(t, trail[..|trail| - 1])
  {
  }

  lemma OwnsMeans(t: Tag, trail: seq<Decl>)
    requires Owns(t, trail) && t.end == |trail|
    ensures t.start <= |trail| && |t.bindings| == |trail| - t.start
    ensures forall k :: 0 <= k < |t.bindings| ==> t.bindings[k] == trail[t.start + k].b
  {
  }

  lemma OwnsNow(t: Tag, before: seq<Decl>, was: seq<Binding>, now: seq<Decl>)
    requires t.start <= |before| && |was| == |before| - t.start
    requires forall k :: 0 <= k < |was| ==> was[k] == before[t.start + k].b
    requires |now| == |before| + 1 && before <= now && t.bindings == was + [now[|before|].b] && t.end == |now|
    ensures Owns(t, now)
  {
  }

  lemma OwnsWithin(t: Tag, trail: seq<Decl>)
    requires Owns(t, trail)
    ensures t.start <= t.end <= |trail|
  {
  }

  /** The local part in the buffer of a tag, up to its terminator. */
  lemma LocalPart(t: Tag, at: nat)
    requires Buffered(t) && at <= |t.name|
    ensures var local := t.name[at..];
            && at + |local| == t.strLen < t.buf.Length && t.buf[at..at + |local|] == local && t.buf[t.strLen] == 0
            && 0 !in local
  {
  }

  lemma BufferedNow(t: Tag)
    requires t.strLen == |t.name| < t.buf.Length && t.buf[..t.strLen] == t.name && t.buf[t.strLen] == 0 && 0 !in t.name
    requires !t.rawStored && t.raw == t.rawName && t.rawLen == |t.rawName|
    ensures Buffered(t)
  {
  }

  /** The name that was reported is made of the URI of a declaration in scope and of the name in the tag. */
  ghost predicate Spelled(t: Tag, trail: seq<Decl>, sep: byte, triplets: bool)
    reads t`start, t`end, t`local, t`started, t`name, t`useAt, t`uriLen, t`prefixName
  {
    && t.start <= t.end <= |trail|
    && match t.local
       case None => t.started == t.name
       case Some(at) =>
         && t.useAt < t.end && t.uriLen == |trail[t.useAt].text| && at <= |t.name|
         && t.started == trail[t.useAt].text + t.name[at..] + Suffix(sep, triplets, t.prefixName)
  }

  /** The name stands in the buffer of the tag, or in that of the declaration, which has room for it. */
  ghost predicate Points(t: Tag, trail: seq<Decl>)
    reads t`local, t`str, t`buf, t`started, t`useAt, (set d | d in trail :: d.b)`uri
  {
    match t.local
    case None => t.str == t.buf
    case Some(_) => t.useAt < |trail| && t.str == trail[t.useAt].b.uri && |t.started| < t.str.Length
  }

  /** The name that was reported can be built again. */
  ghost predicate Named(t: Tag, trail: seq<Decl>, sep: byte, triplets: bool)
    reads t`start, t`end, t`local, t`str, t`buf, t`started, t`name, t`useAt, t`uriLen, t`prefixName
    reads (set d | d in trail :: d.b)`uri
  {
    Spelled(t, trail, sep, triplets) && Points(t, trail)
  }

  /** The bindings of an element are its part of the trail. */
  ghost predicate Owns(t: Tag, trail: seq<Decl>)
    reads t`start, t`end, t`bindings
  {
    && t.start <= t.end <= |trail| && |t.bindings| == t.end - t.start
    && forall k :: 0 <= k < |t.bindings| ==> t.bindings[k] == trail[t.start + k].b
  }

  lemma RemembersMore(trail: seq<Decl>, d: Decl)
    requires Remembers(trail) && d.b.prev == Innermost(trail, d.prefix)
    ensures Remembers(trail + [d])
  {
    hide Innermost;
    var now := trail + [d];
    forall k | 0 <= k < |now| ensures now[k].b.prev == Innermost(now[..k], now[k].prefix) {
      assert now[..k] == trail[..k];
    }
  }

  lemma HoldingMore(trail: seq<Decl>, d: Decl, prefixes: set<Prefix>)
    requires Holding(trail, prefixes) && Holds(d) && d.prefix in prefixes
    requires forall k :: 0 <= k < |trail| ==> trail[k].b != d.b
    ensures Holding(trail + [d], prefixes)
  {
  }

  lemma NamedMore(t: Tag, trail: seq<Decl>, d: Decl, sep: byte, triplets: bool)
    requires Named(t, trail, sep, triplets) && Owns(t, trail)
    ensures Named(t, trail + [d], sep, triplets) && Owns(t, trail + [d])
  {
  }

  /** The start of a buffer, in a new one. */
  method CopyStart(was: array<byte>, len: nat, size: nat) returns (uri: array<byte>)
    requires len <= was.Length && len <= size
    ensures fresh(uri) && uri.Length == size && uri[..len] == was[..len]
  {
    uri := new byte[size];
    for k := 0 to len
      invariant uri[..k] == was[..k]
    {
      uri[k] := was[k];
    }
  }

  /** The parts of XML_Parser that hold open elements and namespace scopes. */
  class NsParser {
    const sep: byte
    const triplets: bool
    var tagStack: seq<Tag>
    var freeTags: seq<Tag>
    var freeBindings: seq<Binding>
    /** The open elements as the handlers know them. */
    ghost var scopes: seq<Scope>
    ghost var trail: seq<Decl>
    ghost var prefixes: set<Prefix>
    ghost var binds: set<Binding>
    ghost var tags: set<Tag>

    ghost function Uris(): set<array<byte>>
      reads this`binds, binds`uri
    {
      set b | b in binds :: b.uri
    }

    ghost function Bufs(): set<array<byte>>
      reads this`tags, tags`buf
    {
      set t | t in tags :: t.buf
    }

    /** No two buffers are the same. */
    ghost predicate Apart()
      reads this`binds, this`tags, binds`uri, tags`buf
    {
      && (forall b, c :: b in binds && c in binds && b != c ==> b.uri != c.uri)
      && (forall t, u :: t in tags && u in tags && t != u ==> t.buf != u.buf)
      && (forall t, b :: t in tags && b in binds ==> t.buf != b.uri)
    }

    /** The declarations in scope, and the bindings that are not in use. */
    ghost predicate Scopes()
      reads this`trail, this`binds, this`prefixes, this`freeBindings, binds, prefixes`binding, Uris()
    {
      Declarations() && Current(trail, prefixes)
    }

    ghost predicate Declarations()
      reads this`trail, this`binds, this`prefixes, this`freeBindings, binds, Uris()
    {
      && (forall d :: d in trail ==> d.b in binds)
      && Remembers(trail) && Holding(trail, prefixes)
      && (forall k :: 0 <= k < |freeBindings| ==> freeBindings[k] in binds)
      && (forall k, j :: 0 <= k < |freeBindings| && 0 <= j < |trail| ==> trail[j].b != freeBindings[k])
      && (forall k, j :: 0 <= k < j < |freeBindings| ==> freeBindings[k] != freeBindings[j])
    }

    ghost predicate Element(t: Tag)
      reads this`trail, this`binds, this`tags, binds`uri, t, t.buf
    {
      && (forall d :: d in trail ==> d.b in binds)
      && t in tags && Buffered(t) && Named(t, trail, sep, triplets) && Owns(t, trail)
    }

    /** The open elements, and the tags that are not in use. */
    ghost predicate Elements()
      reads this`trail, this`binds, this`tags, this`tagStack, this`freeTags, binds`uri, tags, Bufs()
    {
      && (forall i :: 0 <= i < |tagStack| ==> tagStack[i] in tags && Element(tagStack[i]))
      && (forall i, j :: 0 <= i < j < |tagStack| ==> tagStack[i] != tagStack[j] && tagStack[i].end <= tagStack[j].start)
      && (forall k :: 0 <= k < |freeTags| ==> freeTags[k] in tags && freeTags[k] !in tagStack)
      && (forall k, j :: 0 <= k < j < |freeTags| ==> freeTags[k] != freeTags[j])
    }

    ghost predicate Inv()
      reads this`trail, this`binds, this`tags, this`tagStack, this`freeTags, this`prefixes, this`freeBindings
      reads binds, tags, prefixes`binding, Uris(), Bufs()
    {
      Apart() && Scopes() && Elements()
    }

    constructor (sep: byte, triplets: bool)
      ensures Inv() && tagStack == [] && trail == [] && this.sep == sep && this.triplets == triplets
    {
      this.sep, this.triplets := sep, triplets;
      tagStack, freeTags, freeBindings := [], [], [];
      scopes, trail, prefixes, binds, tags := [], [], {}, {}, {};
    }

    /** A prefix that is met for the first time is not bound. */
    method NewPrefix(name: Option<Octets>) returns (p: Prefix)
      requires Inv()
      modifies this`prefixes
      ensures Inv() && prefixes == old(prefixes) + {p} && fresh(p) && p.name == name && p.binding == null
    {
      hide Buffered, Named, Owns, Remembers, Holds, Innermost;
      p := new Prefix(name);
      NeverBound(trail, p);
      prefixes := prefixes + {p};
    }

    /** The URI of a declaration as it is kept: with the separator, if there is one. */
    ghost function Text(uri: Octets): Octets {
      uri + if sep != 0 then [sep] else []
    }

    /** A binding that is not in use, with a buffer that is large enough. */
    method TakeBinding(prefix: Prefix, len: nat) returns (b: Binding)
      requires Inv()
      modifies this`freeBindings, this`binds, binds
      ensures Inv() && b in binds && len <= b.uri.Length && Unused(b)
      ensures binds == old(binds) + {b} && (b in old(binds) || fresh(b)) && (fresh(b.uri) || b.uri in old(Uris()))
      ensures forall c :: c in old(binds) && c != b ==> c.uri == old(c.uri)
    {
      if freeBindings != [] {
        b := TakeFree(len);
      } else {
        b := TakeNew(prefix, len);
      }
    }

    /** The binding is neither in scope nor in the free list. */
    ghost predicate Unused(b: Binding)
      reads this`trail, this`freeBindings
    {
      (forall j :: 0 <= j < |trail| ==> trail[j].b != b) && b !in freeBindings
    }

    method TakeFree(len: nat) returns (b: Binding)
      requires Inv() && freeBindings != []
      modifies this`freeBindings, binds
      ensures Inv() && b in binds && len <= b.uri.Length && Unused(b)
      ensures fresh(b.uri) || b.uri in old(Uris())
      ensures forall c :: c in binds && c != b ==> c.uri == old(c.uri)
    {
      hide Buffered, Named, Owns, Remembers, Holding, Current;
      b := freeBindings[0];
      if len > b.uri.Length {
        Enlarge(b, len);
      }
      freeBindings := freeBindings[1..];
    }

    /** The buffer of a binding that is not in scope is replaced. */
    method Enlarge(b: Binding, len: nat)
      requires Inv() && b in binds && (forall j :: 0 <= j < |trail| ==> trail[j].b != b)
      modifies b
      ensures Inv() && len <= b.uri.Length && fresh(b.uri)
    {
      hide Buffered, Named, Owns, Remembers, Holding, Current;
      b.uri := new byte[len + SPARE];
    }

    method TakeNew(prefix: Prefix, len: nat) returns (b: Binding)
      requires Inv()
      modifies this`binds
      ensures Inv() && fresh(b) && fresh(b.uri) && len <= b.uri.Length && Unused(b) && binds == old(binds) + {b}
    {
      hide Buffered, Named, Owns, Remembers, Holding, Current;
      b := new Binding(prefix, len + SPARE);
      binds := binds + {b};
    }

    /** The URI, with the separator, is written to the buffer of an unused binding. */
    method WriteUri(b: Binding, uri: Octets)
      requires Inv() && b in binds && Unused(b) && |Text(uri)| <= b.uri.Length
      modifies b`uriLen, b.uri
      ensures Inv() && Unused(b) && b.uriLen == |Text(uri)| <= b.uri.Length
      ensures b.uri[..b.uriLen] == Text(uri)
    {
      hide Inv, Unused;
      SetUriLen(b, |uri| + if sep != 0 then 1 else 0);
      for k := 0 to |uri|
        invariant Inv() && Unused(b) && b.uriLen == |Text(uri)|
        invariant b.uri[..k] == uri[..k]
      {
        PutUnused(b, k, uri[k]);
      }
      if sep != 0 {
        PutUnused(b, b.uriLen - 1, sep);
      }
      assert uri[..|uri|] == uri;
    }

    method SetUriLen(b: Binding, len: nat)
      requires Inv() && b in binds && Unused(b)
      modifies b`uriLen
      ensures Inv() && Unused(b) && b.uriLen == len
    {
      hide Buffered, Named, Owns, Remembers, Current;
      b.uriLen := len;
    }

    method PutUnused(b: Binding, at: nat, c: byte)
      requires Inv() && b in binds && Unused(b) && at < b.uri.Length
      modifies b.uri
      ensures Inv() && Unused(b) && b.uri[at] == c
      ensures forall k :: 0 <= k < b.uri.Length && k != at ==> b.uri[k] == old(b.uri[k])
    {
      hide Buffered, Named, Owns, Remembers, Current;
      b.uri[at] := c;
    }

    /** The binding comes into scope for its prefix. */
    method Bind(b: Binding, prefix: Prefix, ghost text: Octets, undeclares: bool)
      requires Inv() && b in binds && Unused(b) && prefix in prefixes
      requires b.uriLen == |text| <= b.uri.Length && b.uri[..|text|] == text
      modifies b`prefix, b`prev, prefix`binding, this`trail
      ensures Inv() && trail == old(trail) + [Decl(b, prefix, undeclares, text)]
    {
      hide Buffered, Named, Owns, Remembers, Holding, Innermost;
      ghost var d := Decl(b, prefix, undeclares, text);
      b.prefix := prefix;
      b.prev := prefix.binding;
      prefix.binding := if undeclares then null else b;
      forall p | p in prefixes ensures p.binding == Innermost(trail + [d], p) {
        TrailTake(trail, d, p);
      }
      Extend(d);
    }

    /** The declaration joins the trail. */
    ghost method Extend(d: Decl)
      requires Apart() && Declarations() && Elements() && Current(trail + [d], prefixes)
      requires d.b in binds && Unused(d.b) && Holds(d) && d.prefix in prefixes
      requires d.b.prev == Innermost(trail, d.prefix)
      modifies this`trail
      ensures Inv() && trail == old(trail) + [d]
    {
      hide Buffered, Named, Owns, Remembers, Holding, Innermost, Current, Holds;
      RemembersMore(trail, d);
      HoldingMore(trail, d, prefixes);
      forall i | 0 <= i < |tagStack|
        ensures Named(tagStack[i], trail + [d], sep, triplets) && Owns(tagStack[i], trail + [d])
      {
        NamedMore(tagStack[i], trail, d, sep, triplets);
      }
      trail := trail + [d];
    }

    /** Bindings and buffers are those of before, or new. */
    twostate predicate Grows()
      reads this`binds, binds`uri
    {
      forall c :: c in binds ==> (c in old(binds) || fresh(c)) && (c.uri in old(Uris()) || fresh(c.uri))
    }

    /** addBinding */
    method AddBinding(prefix: Prefix, uri: Octets) returns (error: Option<NsError>, b: Binding?)
      requires Inv() && prefix in prefixes
      modifies this`freeBindings, this`binds, this`trail, binds, prefix`binding, Uris()
      ensures Inv() && error == Refusal(prefix.name, uri) && Grows()
      ensures error.Some? ==> b == null && trail == old(trail)
      ensures error.None? ==>
                b != null && trail == old(trail) + [Decl(b, prefix, uri == [] && prefix.name.None?, Text(uri))]
    {
      b := null;
      error := CheckBinding(prefix.name, uri);
      if error.None? {
        b := NewBinding(prefix, uri);
      }
    }

    /** The rest of addBinding, once the declaration is accepted. */
    method NewBinding(prefix: Prefix, uri: Octets) returns (b: Binding)
      requires Inv() && prefix in prefixes
      modifies this`freeBindings, this`binds, this`trail, binds, prefix`binding, Uris()
      ensures Inv() && Grows()
      ensures trail == old(trail) + [Decl(b, prefix, uri == [] && prefix.name.None?, Text(uri))]
    {
      hide Buffered, Named, Owns, Remembers, Holding, Current, Innermost;
      b := TakeBinding(prefix, |uri| + if sep != 0 then 1 else 0);
      WriteUri(b, uri);
      Bind(b, prefix, Text(uri), uri == [] && prefix.name.None?);
    }

    /** The binding that a prefix has now, and where it was declared. */
    lemma WhereBound(p: Prefix) returns (u: nat)
      requires Inv() && p in prefixes && p.binding != null
      ensures u < |trail| && trail[u].b == p.binding && trail[u].prefix == p && !trail[u].undeclares
      ensures forall k :: u < k < |trail| ==> trail[k].prefix != p
    {
      u := InnermostAt(trail, p);
    }

    /** A larger buffer for a binding in scope: every open element whose name is built there follows. */
    method GrowUri(b: Binding, n: nat, ghost u: nat)
      requires Inv() && u < |trail| && trail[u].b == b && n > b.uri.Length
      modifies b`uri, tagStack`str
      ensures Inv() && n <= b.uri.Length && fresh(b.uri)
    {
      hide Buffered, Owns, Remembers, Holding, Current, Innermost, Named;
      var was := b.uri;
      HoldsAt(u);
      var uri := CopyStart(was, b.uriLen, n + SPARE);
      SwapUri(b, uri, u);
    }

    /** The new buffer takes the place of the old one, in the binding and in the names. */
    method SwapUri(b: Binding, uri: array<byte>, ghost u: nat)
      requires Inv() && u < |trail| && trail[u].b == b && uri !in Uris() && uri !in Bufs()
      requires b.uri.Length < uri.Length && b.uriLen <= b.uri.Length && uri[..b.uriLen] == b.uri[..b.uriLen]
      modifies b`uri, tagStack`str
      ensures Inv() && b.uri == uri
    {
      hide Buffered, Owns, Remembers, Holding, Current, Innermost, Spelled;
      SwapBuffers(b, uri, u);
      forall i | 0 <= i < |tagStack| ensures Points(tagStack[i], trail) {
      }
    }

    lemma HoldsAt(u: nat)
      requires Inv() && u < |trail|
      ensures Holds(trail[u]) && trail[u].prefix in prefixes && trail[u].b in binds
    {
    }

    method SwapBuffers(b: Binding, uri: array<byte>, ghost u: nat)
      requires Inv() && u < |trail| && trail[u].b == b && uri !in Uris() && uri !in Bufs()
      requires b.uriLen <= uri.Length && b.uriLen <= b.uri.Length && uri[..b.uriLen] == b.uri[..b.uriLen]
      modifies b`uri, tagStack`str
      ensures Apart() && Scopes() && b.uri == uri
      ensures forall i :: 0 <= i < |tagStack| ==>
                tagStack[i].str == if old(tagStack[i].str) == old(b.uri) then uri else old(tagStack[i].str)
      ensures forall i :: 0 <= i < |tagStack| ==> Buffered(tagStack[i]) && Owns(tagStack[i], trail)
    {
      hide Buffered, Owns, Named, Remembers, Current, Innermost;
      MoveNames(b.uri, uri);
      b.uri := uri;
      assert Apart();
      assert Holding(trail, prefixes);
    }

    /** All names that are built in one buffer are now in another. */
    method MoveNames(was: array<byte>, uri: array<byte>)
      requires forall i, j :: 0 <= i < j < |tagStack| ==> tagStack[i] != tagStack[j]
      modifies tagStack`str
      ensures forall i :: 0 <= i < |tagStack| ==>
                tagStack[i].str == if old(tagStack[i].str) == was then uri else old(tagStack[i].str)
    {
      for i := 0 to |tagStack|
        invariant forall k :: 0 <= k < i ==>
                    tagStack[k].str == if old(tagStack[k].str) == was then uri else old(tagStack[k].str)
        invariant forall k :: i <= k < |tagStack| ==> tagStack[k].str == old(tagStack[k].str)
      {
        if tagStack[i].str == was {
          tagStack[i].str := uri;
        }
      }
    }

    // ----- element names

    /** The tag is neither open nor free. */
    ghost predicate Spare(t: Tag)
      reads this`tags, this`tagStack, this`freeTags
    {
      t in tags && t !in tagStack && t !in freeTags
    }

    /** A tag for a new element. */
    method TakeTag() returns (t: Tag)
      requires Inv()
      modifies this`freeTags, this`tags
      ensures Inv() && Spare(t) && (t in old(tags) || fresh(t)) && (t in old(tags) || fresh(t.buf))
      ensures tags == old(tags) + {t}
    {
      hide Buffered, Named, Owns, Remembers, Holding, Current;
      if freeTags != [] {
        t := freeTags[0];
        freeTags := freeTags[1..];
      } else {
        t := new Tag();
        tags := tags + {t};
      }
    }

    /** Twice the buffer of a tag that is not open, until the name and its terminator fit. */
    method GrowBuf(t: Tag, size: nat)
      requires Inv() && Spare(t)
      modifies t`buf
      ensures Inv() && size <= t.buf.Length && (t.buf == old(t.buf) || fresh(t.buf))
    {
      hide Buffered, Named, Owns, Remembers, Holding, Current;
      if t.buf.Length < size {
        var room := if t.buf.Length == 0 then 1 else t.buf.Length;
        while room < size
          invariant room >= 1
          decreases size - room
        {
          room := room * 2;
        }
        t.buf := new byte[room];
      }
    }

    /** The qualified name is written to the buffer of the tag. */
    method FillName(t: Tag, name: Octets, raw: Octets)
      requires Inv() && Spare(t) && 0 !in name
      modifies t, t.buf
      ensures Inv() && Spare(t) && Buffered(t) && t.name == name && t.rawName == raw
      ensures t.local.None? && t.str == t.buf && t.started == name && t.prefixName.None? && t.bindings == []
      ensures !t.rawStored
      ensures (t.buf == old(t.buf) || fresh(t.buf)) && t.start == t.end == |trail|
    {
      hide Buffered, Named, Owns, Remembers, Holding, Current;
      GrowBuf(t, |name| + 1);
      SpellName(t.buf, name);
      SetName(t, name, raw);
    }

    /** The fields of a tag whose name is in its buffer. */
    method SetName(t: Tag, name: Octets, raw: Octets)
      requires Inv() && Spare(t) && 0 !in name
      requires |name| < t.buf.Length && t.buf[..|name|] == name && t.buf[|name|] == 0
      modifies t
      ensures Inv() && Spare(t) && Buffered(t) && t.name == name && t.rawName == raw && t.buf == old(t.buf)
      ensures t.local.None? && t.str == t.buf && t.started == name && t.prefixName.None? && t.bindings == []
      ensures !t.rawStored
      ensures t.start == t.end == |trail|
    {
      hide Buffered, Named, Owns, Remembers, Holding, Current;
      t.Begin(name, raw, |trail|);
      BufferedNow(t);
    }

    method SpellName(buf: array<byte>, name: Octets)
      requires Inv() && |name| < buf.Length && buf in Bufs()
      requires forall i :: 0 <= i < |tagStack| ==> tagStack[i].buf != buf
      modifies buf
      ensures Inv() && buf[..|name|] == name && buf[|name|] == 0
    {
      hide Buffered, Named, Owns, Remembers, Holding, Current;
      for k := 0 to |name|
        invariant Inv() && buf[..k] == name[..k]
      {
        buf[k] := name[k];
      }
      buf[|name|] := 0;
      assert name[..|name|] == name;
    }

    /** A buffer that belongs to a declaration in scope. */
    ghost predicate UriAt(uri: array<byte>, uriLen: nat, u: nat)
      reads this`trail, this`binds, binds`uri
    {
      && (forall d :: d in trail ==> d.b in binds)
      && u < |trail| && trail[u].b.uri == uri && |trail[u].text| == uriLen <= uri.Length
    }

    /** The local part, and with triplets the prefix, are written after the URI in its buffer. */
    method BuildName(uri: array<byte>, uriLen: nat, buf: array<byte>, at: nat, ghost local: Octets,
                     prefixName: Option<Octets>, ghost u: nat)
      requires Inv() && UriAt(uri, uriLen, u) && buf in Bufs()
      requires at + |local| < buf.Length && buf[at..at + |local|] == local && buf[at + |local|] == 0 && 0 !in local
      requires uriLen + |local| + |Suffix(sep, triplets, prefixName)| < uri.Length
      modifies uri
      ensures Inv()
      ensures var name := trail[u].text + local + Suffix(sep, triplets, prefixName);
              |name| < uri.Length && uri[..|name|] == name && uri[|name|] == 0
    {
      hide Buffered, Named, Owns, Remembers, Holding, Current, Innermost;
      var to := CopyLocal(uri, uriLen, buf, at, local, u);
      if triplets && prefixName.Some? {
        to := CopySuffix(uri, uriLen, prefixName.value, to, trail[u].text + local, u);
      }
      Finish(uri, uriLen, to, u);
    }

    /** A byte past the URI changes no declaration. */
    method Put(uri: array<byte>, uriLen: nat, at: nat, c: byte, ghost u: nat)
      requires Inv() && UriAt(uri, uriLen, u) && uriLen <= at < uri.Length
      modifies uri
      ensures Inv() && uri[at] == c && forall k :: 0 <= k < uri.Length && k != at ==> uri[k] == old(uri[k])
    {
      hide Buffered, Named, Owns, Remembers, Current, Innermost;
      HoldsAt(u);
      uri[at] := c;
      assert uri[..|trail[u].text|] == trail[u].text;
    }

    method CopyLocal(uri: array<byte>, uriLen: nat, buf: array<byte>, at: nat, ghost local: Octets, ghost u: nat)
      returns (to: nat)
      requires Inv() && UriAt(uri, uriLen, u) && buf in Bufs()
      requires at + |local| < buf.Length && buf[at..at + |local|] == local && buf[at + |local|] == 0 && 0 !in local
      requires uriLen + |local| < uri.Length
      modifies uri
      ensures Inv() && to == uriLen + |local|
      ensures uri[..to] == trail[u].text + local
    {
      hide Buffered, Named, Owns, Remembers, Holding, Current, Innermost;
      HoldsAt(u);
      ghost var n := 0;
      var from := at;
      to := uriLen;
      ghost var text := trail[u].text;
      UriHeld(uri, u);
      assert local[..0] == [];
      assert local != [] ==> buf[at..at + |local|][0] == buf[at];
      while buf[from] != 0
        invariant Inv() && n <= |local| && from == at + n && to == uriLen + n
        invariant at + |local| < buf.Length && buf[at..at + |local|] == local && buf[at + |local|] == 0
        invariant uri[..to] == text + local[..n]
        invariant n < |local| ==> local[n] == buf[from]
        decreases |local| - n
      {
        Put(uri, uriLen, to, buf[from], u);
        from, to, n := from + 1, to + 1, n + 1;
        assert local[..n] == local[..n - 1] + [local[n - 1]];
        assert n < |local| ==> buf[at..at + |local|][n] == buf[from];
      }
      assert local[..n] == local;
    }

    lemma UriHeld(uri: array<byte>, u: nat)
      requires Inv() && u < |trail| && trail[u].b.uri == uri
      ensures |trail[u].text| <= uri.Length && uri[..|trail[u].text|] == trail[u].text
    {
    }

    method CopySuffix(uri: array<byte>, uriLen: nat, prefixName: Octets, start: nat, ghost before: Octets, ghost u: nat)
      returns (to: nat)
      requires Inv() && UriAt(uri, uriLen, u) && uriLen <= start
      requires start + 1 + |prefixName| < uri.Length && start == |before| && uri[..start] == before
      modifies uri
      ensures Inv() && to == start + 1 + |prefixName| && uri[..to] == before + ([sep] + prefixName)
    {
      hide Buffered, Named, Owns, Remembers, Holding, Current, Innermost;
      Put(uri, uriLen, start, sep, u);
      to := start + 1;
      for k := 0 to |prefixName|
        invariant Inv() && to == start + 1 + k && uri[..to] == before + ([sep] + prefixName[..k])
      {
        Put(uri, uriLen, to, prefixName[k], u);
        to := to + 1;
        assert prefixName[..k + 1] == prefixName[..k] + [prefixName[k]];
      }
      assert prefixName[..|prefixName|] == prefixName;
    }

    method Finish(uri: array<byte>, uriLen: nat, to: nat, ghost u: nat)
      requires Inv() && UriAt(uri, uriLen, u) && uriLen <= to < uri.Length
      modifies uri
      ensures Inv() && uri[..to] == old(uri[..to]) && uri[to] == 0
    {
      hide Inv;
      Put(uri, uriLen, to, 0, u);
    }

    /** The expanded name of an element whose prefix is bound here; local is where its local part begins. */
    ghost function Expanded(p: Prefix, name: Octets, at: nat, u: nat): Octets
      requires u < |trail| && at <= |name|
      reads this`trail
    {
      trail[u].text + name[at..] + Suffix(sep, triplets, p.name)
    }

    /** The string in the handler's hands is the name that is kept for the element. */
    ghost predicate Reported(t: Tag)
      reads t`started, t`str, t.str
    {
      Stands(t.str, t.started)
    }

    /** The string in a buffer. */
    ghost predicate Stands(buf: array<byte>, name: Octets)
      reads buf
    {
      |name| < buf.Length && buf[..|name|] == name && buf[|name|] == 0
    }

    /** A new element whose name needs no expansion, or has got it. */
    ghost predicate Starting(t: Tag)
      reads this`tags, this`tagStack, this`freeTags, this`trail, t, t.buf
    {
      && Spare(t) && Buffered(t) && Owns(t, trail) && t.end == |trail|
      && t.local.None? && t.str == t.buf && t.started == t.name
    }

    /** The name of a new element is built in the buffer of the binding of its prefix. */
    method ExpandIn(t: Tag, p: Prefix, at: nat, ghost u: nat)
      requires Inv() && Starting(t) && p in prefixes && at <= |t.name|
      requires p.binding != null && u < |trail| && trail[u].b == p.binding && trail[u].prefix == p
      modifies t`local, t`uriLen, t`prefixName, t`started, t`useAt, t`str, binds`uri, Uris(), tagStack`str
      ensures Inv() && Spare(t) && Buffered(t) && Named(t, trail, sep, triplets) && Owns(t, trail) && t.end == |trail|
      ensures t.started == Expanded(p, t.name, at, u) && Reported(t) && Grows()
    {
      hide Buffered, Owns, Spelled, Points, Reported, Remembers, Holding, Current, Innermost;
      HoldsAt(u);
      Describe(t, p, at, u);
      var b := p.binding;
      var prefixLen := if triplets && p.name.Some? then |p.name.value| + 1 else 0;
      NameLength(t);
      EnsureRoom(b, t.strLen - at + 1 + b.uriLen + prefixLen, u);
      WriteName(t, p, at, u);
    }

    /** What the tag keeps of its expanded name. */
    method Describe(t: Tag, p: Prefix, at: nat, ghost u: nat)
      requires Inv() && Starting(t) && p in prefixes && at <= |t.name|
      requires p.binding != null && u < |trail| && trail[u].b == p.binding && trail[u].prefix == p
      modifies t`local, t`uriLen, t`prefixName, t`started, t`useAt
      ensures Inv() && Spare(t) && Buffered(t) && Owns(t, trail) && t.end == |trail|
      ensures Spelled(t, trail, sep, triplets) && t.local == Some(at) && t.useAt == u && t.prefixName == p.name
      ensures t.started == Expanded(p, t.name, at, u)
    {
      hide Buffered, Named, Owns, Remembers, Holding, Current, Innermost;
      HoldsAt(u);
      t.Expand(at, p.binding.uriLen, p.name, Expanded(p, t.name, at, u), u);
      OwnsWithin(t, trail);
    }

    method EnsureRoom(b: Binding, n: nat, ghost u: nat)
      requires Inv() && u < |trail| && trail[u].b == b
      modifies b`uri, tagStack`str
      ensures Inv() && n <= b.uri.Length && (b.uri == old(b.uri) || fresh(b.uri))
    {
      hide Inv;
      if n > b.uri.Length {
        GrowUri(b, n, u);
      }
    }

    method WriteName(t: Tag, p: Prefix, at: nat, ghost u: nat)
      requires Inv() && Spare(t) && Buffered(t) && Spelled(t, trail, sep, triplets) && at <= |t.name|
      requires p.binding != null && u < |trail| && trail[u].b == p.binding
      requires t.local == Some(at) && t.useAt == u && t.started == Expanded(p, t.name, at, u)
      requires |t.started| < p.binding.uri.Length
      modifies t`str, p.binding.uri
      ensures Inv() && Spare(t) && Buffered(t) && Spelled(t, trail, sep, triplets) && Points(t, trail) && Reported(t)
    {
      hide Buffered, Named, Owns, Spelled, Remembers, Holding, Current, Innermost;
      HoldsAt(u);
      LocalPart(t, at);
      BuildName(p.binding.uri, p.binding.uriLen, t.buf, at, t.name[at..], p.name, u);
      t.PointTo(p.binding.uri);
    }

    /** The element name by Namespaces in XML 1.0, section 6: none if the prefix is not bound. */
    ghost function NameFor(trail: seq<Decl>, name: Octets, p: Prefix?, default: Prefix): Option<Octets> {
      if p != null then
        var text := BoundText(trail, p);
        if text.None? then None else Some(text.value + name[AfterColon(name)..] + Suffix(sep, triplets, p.name))
      else
        var text := BoundText(trail, default);
        if text.None? then Some(name) else Some(text.value + name + Suffix(sep, triplets, default.name))
    }

    /** The expansion of the element type name at the end of storeAtts. */
    method ExpandName(t: Tag, p: Prefix?, default: Prefix) returns (error: Option<NsError>)
      requires Inv() && Starting(t) && default in prefixes && (p != null ==> p in prefixes && 0x3A in t.name)
      modifies t`local, t`uriLen, t`prefixName, t`started, t`useAt, t`str, binds`uri, Uris(), tagStack`str
      ensures Inv() && Spare(t)
      ensures error == if NameFor(trail, t.name, p, default).None? then Some(UnboundPrefix) else None
      ensures error.None? ==> Buffered(t) && Named(t, trail, sep, triplets) && Owns(t, trail) && t.end == |trail|
                              && Reported(t) && NameFor(trail, t.name, p, default) == Some(t.started)
      ensures Grows()
    {
      hide Inv, Buffered, Named, Owns, Reported, Innermost, BoundText;
      if p != null {
        BoundTexts(p);
        if p.binding == null {
          ExpandNothing(t);
          return Some(UnboundPrefix);
        }
        ghost var u := WhereBound(p);
        TextAt(trail, p, u);
        var at := FindColon(t);
        ExpandIn(t, p, at, u);
      } else {
        BoundTexts(default);
        if default.binding != null {
          ghost var u := WhereBound(default);
          TextAt(trail, default, u);
          ExpandIn(t, default, 0, u);
          assert t.name[0..] == t.name;
        } else {
          ExpandNothing(t);
        }
      }
      error := None;
    }

    /** Without a namespace the name stays in the buffer of the tag. */
    lemma ExpandNothing(t: Tag)
      requires Inv() && Starting(t)
      ensures Spare(t) && Buffered(t) && Named(t, trail, sep, triplets) && Owns(t, trail) && t.end == |trail|
      ensures Reported(t) && t.started == t.name
    {
    }

    lemma BoundTexts(p: Prefix)
      requires Inv() && p in prefixes
      ensures p.binding != null <==> BoundText(trail, p).Some?
    {
      hide Buffered, Named, Owns, Remembers, Holding;
      BoundTogether(trail, p);
    }

    /** The loop that looks for the colon of a prefixed name. */
    method FindColon(t: Tag) returns (at: nat)
      requires Inv() && Starting(t) && 0x3A in t.name
      ensures at == AfterColon(t.name) <= |t.name| && Inv() && Starting(t)
    {
      hide Named, Owns, Remembers, Holding, Current, Innermost;
      at := 0;
      assert t.name[0..] == t.name;
      while t.buf[at] != 0x3A
        invariant at <= |t.name| && at + AfterColon(t.name[at..]) == AfterColon(t.name) && 0x3A in t.name[at..]
        decreases |t.name| - at
      {
        assert t.buf[..t.strLen][at] == t.buf[at];
        assert t.name[at..][1..] == t.name[at + 1..];
        at := at + 1;
      }
      assert at < |t.name| ==> t.buf[..t.strLen][at] == t.buf[at];
      at := at + 1;
    }

    // ----- elements

    /** What a declaration adds to the trail. */
    ghost predicate Declares(d: Decl, p: Prefix, uri: Octets) {
      d.prefix == p && d.text == Text(uri) && d.undeclares == (uri == [] && p.name.None?)
    }

    /** The trail has grown by these declarations. */
    ghost predicate DeclaresAll(before: seq<Decl>, now: seq<Decl>, decls: seq<(Prefix, Octets)>) {
      && |now| == |before| + |decls| && before <= now
      && forall k :: 0 <= k < |decls| ==> Declares(now[|before| + k], decls[k].0, decls[k].1)
    }

    /** One namespace declaration of a new element. */
    method DeclareOne(t: Tag, p: Prefix, uri: Octets) returns (error: Option<NsError>)
      requires Inv() && Starting(t) && p in prefixes
      modifies this`freeBindings, this`binds, this`trail, binds, p`binding, Uris(), t`bindings, t`end
      ensures Inv() && error == Refusal(p.name, uri) && Spare(t) && t.start == old(t.start)
      ensures error.None? ==> Starting(t) && |trail| == |old(trail)| + 1 && old(trail) <= trail
                              && Declares(trail[|trail| - 1], p, uri)
      ensures error.Some? ==> trail == old(trail)
      ensures Grows()
    {
      hide Buffered, Named, Owns, Remembers, Holding, Current, Innermost;
      var b;
      ghost var before := trail;
      error, b := AddBinding(p, uri);
      if error.None? {
        JoinScope(t, b, before);
      }
    }

    /** The binding joins the list of the element. */
    method JoinScope(t: Tag, b: Binding, ghost before: seq<Decl>)
      requires Inv() && Spare(t) && Buffered(t) && Owns(t, before) && t.end == |before|
      requires t.local.None? && t.str == t.buf && t.started == t.name
      requires |trail| == |before| + 1 && before <= trail && trail[|before|].b == b
      modifies t`bindings, t`end
      ensures Inv() && Starting(t)
    {
      hide Buffered, Named, Owns, Remembers, Holding, Current, Innermost;
      ghost var was := t.bindings;
      OwnsMeans(t, before);
      t.bindings := t.bindings + [b];
      t.end := |trail|;
      OwnsNow(t, before, was, trail);
    }

    /** The namespace declarations of a new element, up to the first that is refused. */
    method DeclareAll(t: Tag, decls: seq<(Prefix, Octets)>) returns (error: Option<NsError>)
      requires Inv() && Starting(t) && forall k :: 0 <= k < |decls| ==> decls[k].0 in prefixes
      modifies this`freeBindings, this`binds, this`trail, binds, prefixes`binding, Uris(), t`bindings, t`end
      ensures Inv() && Spare(t) && t.start == old(t.start) && Grows() && error == FirstRefusal(decls)
      ensures error.None? ==>
                Starting(t) && DeclaresAll(old(trail), trail, decls)
    {
      hide Inv, Buffered, Owns, Refusal, Declares, DeclaresAll;
      assert decls[0..] == decls;
      NothingDeclared(trail, decls);
      for k := 0 to |decls|
        invariant Inv() && Starting(t) && Spare(t) && t.start == old(t.start) && Grows()
        invariant FirstRefusal(decls) == FirstRefusal(decls[k..])
        invariant DeclaresAll(old(trail), trail, decls[..k])
      {
        assert decls[k..][1..] == decls[k + 1..];
        ghost var before := trail;
        error := DeclareOne(t, decls[k].0, decls[k].1);
        if error.Some? {
          return;
        }
        OneMoreDeclared(old(trail), before, trail, decls, k);
      }
      assert decls[..|decls|] == decls;
      error := None;
    }

    lemma NothingDeclared(trail: seq<Decl>, decls: seq<(Prefix, Octets)>)
      ensures DeclaresAll(trail, trail, decls[..0])
    {
    }

    lemma OneMoreDeclared(first: seq<Decl>, before: seq<Decl>, now: seq<Decl>, decls: seq<(Prefix, Octets)>, k: nat)
      requires k < |decls| && DeclaresAll(first, before, decls[..k]) && |now| == |before| + 1 && before <= now
      requires Declares(now[|before|], decls[k].0, decls[k].1)
      ensures DeclaresAll(first, now, decls[..k + 1])
    {
    }

    /** The scopes of the open elements follow on each other, up to this position of the trail. */
    ghost predicate LeadsTo(start: nat)
      reads this`tagStack, tagStack`start, tagStack`end
    {
      && (tagStack != [] ==> tagStack[|tagStack| - 1].end == start)
      && (forall i {:trigger tagStack[i].end} :: 0 <= i < |tagStack| - 1 ==> tagStack[i].end == tagStack[i + 1].start)
    }

    /** The names that were given to the start-element handler, and what the end tags must hold. */
    ghost predicate NamesKept()
      reads this`tagStack, this`scopes, tagStack`started, tagStack`rawName, tagStack`start
    {
      && |scopes| == |tagStack|
      && forall i :: 0 <= i < |tagStack| ==>
           tagStack[i].started == scopes[i].name && tagStack[i].rawName == scopes[i].raw
           && tagStack[i].start == scopes[i].start
    }

    /** The open elements whose raw names are stored come first. */
    ghost predicate StoredFirst()
      reads this`tagStack, tagStack`rawStored
    {
      forall i, j :: 0 <= i < j < |tagStack| && tagStack[j].rawStored ==> tagStack[i].rawStored
    }

    ghost predicate SettledAt(start: nat)
      reads this`tagStack, this`scopes, tagStack`start, tagStack`end, tagStack`started, tagStack`rawName
      reads tagStack`rawStored
    {
      LeadsTo(start) && NamesKept() && StoredFirst()
    }

    /** Between two tags the declarations of the open elements make up the trail. */
    ghost predicate Settled()
      reads this`tagStack, this`trail, this`scopes, tagStack`start, tagStack`end, tagStack`started, tagStack`rawName
      reads tagStack`rawStored
    {
      SettledAt(|trail|)
    }

    /** All that the parser holds was there before, or is new. */
    twostate predicate GrowsAll()
      reads this`binds, binds`uri, this`tags, tags`buf
    {
      Grows() && forall t :: t in tags ==> (t in old(tags) || fresh(t)) && (t.buf in old(Bufs()) || fresh(t.buf))
    }

    /** A start tag: the element is open, and its name is in the hands of the handler. */
    method StartElement(name: Octets, raw: Octets, decls: seq<(Prefix, Octets)>, p: Prefix?, default: Prefix)
      returns (error: Option<NsError>, t: Tag)
      requires Inv() && Settled() && 0 !in name && default in prefixes && (p != null ==> p in prefixes && 0x3A in name)
      requires forall k :: 0 <= k < |decls| ==> decls[k].0 in prefixes
      modifies this, binds, prefixes`binding, tags, tagStack, Uris(), Bufs()
      ensures Inv() && tagStack == if error.None? then old(tagStack) + [t] else old(tagStack)
      ensures FirstRefusal(decls).Some? ==> error == FirstRefusal(decls)
      ensures FirstRefusal(decls).None? ==>
                && DeclaresAll(old(trail), trail, decls)
                && error == if NameFor(trail, name, p, default).None? then Some(UnboundPrefix) else None
      ensures error.None? ==>
                && Settled() && Reported(t) && NameFor(trail, name, p, default) == Some(t.started)
                && scopes == old(scopes) + [Scope(t.started, raw, |old(trail)|)]
      ensures GrowsAll() && prefixes == old(prefixes)
    {
      hide Inv, Starting, Named, Reported, DeclaresAll, NameFor, FirstRefusal, SettledAt;
      t := NewTag(name, raw);
      error := OpenElement(t, decls, p, default, name);
    }

    /** The element is named and becomes the innermost one. */
    method OpenElement(t: Tag, decls: seq<(Prefix, Octets)>, p: Prefix?, default: Prefix, ghost name: Octets)
      returns (error: Option<NsError>)
      requires t.name == name && Inv() && SettledAt(t.start)
      requires Starting(t) && t.start == |trail| && !t.rawStored
      requires default in prefixes && (p != null ==> p in prefixes && 0x3A in t.name)
      requires forall k :: 0 <= k < |decls| ==> decls[k].0 in prefixes
      modifies this`freeBindings, this`binds, this`trail, this`tagStack, this`scopes, binds, prefixes`binding, Uris()
      modifies tagStack`str, t`bindings, t`end, t`local, t`uriLen, t`prefixName, t`started, t`useAt, t`str
      ensures Inv() && tagStack == if error.None? then old(tagStack) + [t] else old(tagStack)
      ensures FirstRefusal(decls).Some? ==> error == FirstRefusal(decls)
      ensures FirstRefusal(decls).None? ==>
                && DeclaresAll(old(trail), trail, decls)
                && error == if NameFor(trail, name, p, default).None? then Some(UnboundPrefix) else None
      ensures error.None? ==> Settled() && Reported(t) && NameFor(trail, name, p, default) == Some(t.started)
                              && scopes == old(scopes) + [Scope(t.started, t.rawName, t.start)]
      ensures GrowsAll()
    {
      hide Inv, Starting, Named, Buffered, Owns, Reported, DeclaresAll, NameFor, FirstRefusal, SettledAt;
      SpareNow(t);
      error := NameElement(t, decls, p, default);
      if error.None? {
        PushTag(t);
      }
    }

    lemma SpareNow(t: Tag)
      requires Starting(t)
      ensures Spare(t)
    {
    }

    /** A tag with the qualified name. */
    method NewTag(name: Octets, raw: Octets) returns (t: Tag)
      requires Inv() && Settled() && 0 !in name
      modifies this`freeTags, this`tags, tags, Bufs()
      ensures Inv() && SettledAt(|trail|) && Starting(t)
      ensures t.name == name && t.rawName == raw && t.start == |trail| && !t.rawStored && (t in old(tags) || fresh(t))
      ensures GrowsAll()
    {
      hide Buffered, Named, Owns, Remembers, Holding, Current, Innermost;
      t := TakeTag();
      FillName(t, name, raw);
      OwnsNothing(t, trail);
    }

    /** storeAtts, as far as names go: the declarations, and then the expansion of the name. */
    method NameElement(t: Tag, decls: seq<(Prefix, Octets)>, p: Prefix?, default: Prefix) returns (error: Option<NsError>)
      requires Inv() && Starting(t) && default in prefixes && (p != null ==> p in prefixes && 0x3A in t.name)
      requires SettledAt(t.start) && forall k :: 0 <= k < |decls| ==> decls[k].0 in prefixes
      modifies this`freeBindings, this`binds, this`trail, binds, prefixes`binding, Uris(), tagStack`str
      modifies t`bindings, t`end, t`local, t`uriLen, t`prefixName, t`started, t`useAt, t`str
      ensures Inv() && Spare(t) && SettledAt(t.start)
      ensures FirstRefusal(decls).Some? ==> error == FirstRefusal(decls)
      ensures FirstRefusal(decls).None? ==>
                && DeclaresAll(old(trail), trail, decls)
                && error == if NameFor(trail, t.name, p, default).None? then Some(UnboundPrefix) else None
      ensures error.None? ==>
                && Buffered(t) && Named(t, trail, sep, triplets) && Owns(t, trail) && t.end == |trail|
                && Reported(t) && NameFor(trail, t.name, p, default) == Some(t.started)
      ensures GrowsAll()
    {
      hide Inv, Buffered, Owns, Named, Reported, DeclaresAll, NameFor, FirstRefusal, SettledAt;
      error := DeclareAll(t, decls);
      if error.None? {
        error := ExpandName(t, p, default);
      }
    }

    /** The new element is the innermost one. */
    method PushTag(t: Tag)
      requires Inv() && Spare(t) && Buffered(t) && Named(t, trail, sep, triplets) && Owns(t, trail) && t.end == |trail|
      requires SettledAt(t.start) && !t.rawStored
      modifies this`tagStack, this`scopes
      ensures Inv() && Settled() && tagStack == old(tagStack) + [t]
      ensures scopes == old(scopes) + [Scope(t.started, t.rawName, t.start)]
    {
      hide Buffered, Named, Owns, Remembers, Holding, Current, Innermost;
      PushedNext(t);
      scopes := scopes + [Scope(t.started, t.rawName, t.start)];
      PushInner(t);
    }

    lemma PushedNext(t: Tag)
      requires LeadsTo(t.start)
      ensures var now := tagStack + [t];
              forall i {:trigger now[i].end} :: 0 <= i < |now| - 1 ==> now[i].end == now[i + 1].start
    {
    }

    method PushInner(t: Tag)
      requires Inv() && Spare(t) && Buffered(t) && Named(t, trail, sep, triplets) && Owns(t, trail)
      requires tagStack != [] ==> tagStack[|tagStack| - 1].end == t.start
      modifies this`tagStack
      ensures Inv() && tagStack == old(tagStack) + [t]
    {
      hide Buffered, Named, Remembers, Holding, Current, Innermost, NamesKept;
      StartsAfter(t);
      tagStack := tagStack + [t];
    }

    /** The scopes of all open elements come before that of the new one. */
    lemma StartsAfter(t: Tag)
      requires Elements() && (tagStack != [] ==> tagStack[|tagStack| - 1].end == t.start)
      ensures forall i :: 0 <= i < |tagStack| ==> tagStack[i].end <= t.start
    {
    }

    /** All open elements declared only what comes before this in the trail. */
    ghost predicate Above(start: nat)
      reads this`tagStack, tagStack`end
    {
      forall i :: 0 <= i < |tagStack| ==> tagStack[i].end <= start
    }

    /** The last declaration goes out of scope: its prefix is bound again as it was before. */
    method Unbind(b: Binding, ghost start: nat)
      requires Inv() && start < |trail| && Above(start) && trail[|trail| - 1].b == b
      modifies this`freeBindings, this`trail, prefixes`binding
      ensures Inv() && trail == old(trail)[..|old(trail)| - 1]
    {
      hide Buffered, Named, Owns, Remembers, Holding, Innermost;
      ghost var d, front := trail[|trail| - 1], trail[..|trail| - 1];
      HoldsAt(|trail| - 1);
      RemembersLast(trail);
      assert trail == front + [d];
      b.prefix.binding := b.prev;
      forall p | p in prefixes ensures p.binding == Innermost(front, p) {
        TrailTake(front, d, p);
      }
      Shorten(b, front, start);
    }

    /** The binding goes to the free list. */
    method Shorten(b: Binding, ghost front: seq<Decl>, ghost start: nat)
      requires Apart() && Declarations() && Elements() && Current(front, prefixes)
      requires start < |trail| && Above(start) && front == trail[..|trail| - 1] && trail[|trail| - 1].b == b
      modifies this`freeBindings, this`trail
      ensures Inv() && trail == front
    {
      hide Buffered, Named, Owns, Remembers, Holding, Innermost, Current;
      RemembersFront(trail);
      HoldingFront(trail, prefixes);
      forall i | 0 <= i < |tagStack|
        ensures Named(tagStack[i], front, sep, triplets) && Owns(tagStack[i], front)
      {
        NamedFront(tagStack[i], trail, sep, triplets);
      }
      trail := front;
      FreeBinding(b);
    }

    method FreeBinding(b: Binding)
      requires Inv() && b in binds && Unused(b)
      modifies this`freeBindings
      ensures Inv()
    {
      hide Buffered, Named, Owns, Remembers, Holding, Innermost, Current;
      freeBindings := [b] + freeBindings;
    }

    /** The loop over the bindings of an element that ends. */
    method PopBindings(t: Tag)
      requires Inv() && Spare(t) && Owns(t, trail) && t.end == |trail| && Above(t.start)
      modifies this`freeBindings, this`trail, prefixes`binding, t`bindings, t`end
      ensures Inv() && Spare(t) && trail == old(trail)[..t.start] && |trail| == t.start && t.bindings == []
    {
      hide Inv, Owns;
      OwnsMeans(t, trail);
      while t.bindings != []
        invariant Inv() && Spare(t) && Owns(t, trail) && t.end == |trail| && Above(t.start)
        invariant t.start <= |trail| <= |old(trail)| && trail == old(trail)[..|trail|]
        decreases |t.bindings|
      {
        OwnsMeans(t, trail);
        PopOne(t);
      }
      OwnsMeans(t, trail);
    }

    method PopOne(t: Tag)
      requires Inv() && Spare(t) && Owns(t, trail) && t.end == |trail| && Above(t.start) && t.bindings != []
      modifies this`freeBindings, this`trail, prefixes`binding, t`bindings, t`end
      ensures Inv() && Spare(t) && Owns(t, trail) && t.end == |trail| && trail == old(trail)[..|old(trail)| - 1]
      ensures |t.bindings| == |old(t.bindings)| - 1
    {
      hide Buffered, Named, Owns, Remembers, Holding, Current, Innermost;
      OwnsMeans(t, trail);
      var b := t.bindings[|t.bindings| - 1];
      ghost var was, bindings := trail, t.bindings;
      Unbind(b, t.start);
      t.bindings := t.bindings[..|t.bindings| - 1];
      t.end := |trail|;
      OwnsLess(t, was, bindings, trail);
    }

    /** The comparison of an end tag with the raw name of the element, wherever that is kept. */
    predicate RawIs(t: Tag, raw: Octets): (same: bool)
      requires Buffered(t)
      reads t`strLen, t`name, t`buf, t`rawLen, t`rawStored, t`raw, t`rawName, t.buf
      ensures same == (raw == t.rawName)
    {
      |raw| == t.rawLen && raw == if t.rawStored then t.buf[t.strLen + 1..t.strLen + 1 + t.rawLen] else t.raw
    }

    /** Nested elements may have written over the name; it is put together again. */
    method RebuildName(t: Tag)
      requires Inv() && t in tagStack
      modifies Uris()
      ensures Inv() && Reported(t)
    {
      hide Remembers, Holding, Current, Innermost, Owns;
      ghost var i :| 0 <= i < |tagStack| && tagStack[i] == t;
      assert Element(t);
      if t.local.Some? {
        var at := t.local.value;
        LocalPart(t, at);
        ghost var u := t.useAt;
        HoldsAt(u);
        BuildName(t.str, t.uriLen, t.buf, at, t.name[at..], t.prefixName, u);
      }
    }

    /** The innermost element is taken off the stack. */
    method PopTag()
      requires Inv() && Settled() && tagStack != []
      modifies this`tagStack, this`scopes
      ensures Inv() && tagStack == old(tagStack)[..|old(tagStack)| - 1] && scopes == old(scopes)[..|old(scopes)| - 1]
      ensures var t := old(tagStack)[|old(tagStack)| - 1];
              && Spare(t) && Above(t.start) && SettledAt(t.start)
              && Owns(t, trail) && t.end == |trail| && t.start == old(scopes)[|old(scopes)| - 1].start
    {
      hide Buffered, Named, Owns, Remembers, Holding, Current, Innermost;
      assert Element(tagStack[|tagStack| - 1]);
      scopes := scopes[..|scopes| - 1];
      tagStack := tagStack[..|tagStack| - 1];
    }

    method FreeTag(t: Tag)
      requires Inv() && Spare(t)
      modifies this`freeTags
      ensures Inv()
    {
      hide Buffered, Named, Owns, Remembers, Holding, Current, Innermost;
      freeTags := [t] + freeTags;
    }

    /** An end tag: the handler gets the name that it got at the start, and the declarations go out of scope. */
    method EndElement(raw: Octets) returns (mismatch: bool, name: array<byte>)
      requires Inv() && Settled() && tagStack != []
      modifies this`tagStack, this`scopes, this`freeTags, this`freeBindings, this`trail, tags, prefixes`binding, Uris()
      ensures old(scopes) != [] && var scope := old(scopes)[|old(scopes)| - 1];
              && (mismatch <==> raw != scope.raw)
              && (!mismatch ==> trail == old(trail)[..scope.start] && Stands(name, scope.name))
      ensures !mismatch ==>
                && Inv() && Settled()
                && tagStack == old(tagStack)[..|old(tagStack)| - 1] && scopes == old(scopes)[..|old(scopes)| - 1]
      ensures GrowsAll()
    {
      hide Inv, LeadsTo, Buffered;
      var t := tagStack[|tagStack| - 1];
      InStack(t);
      name := t.str;
      mismatch := !RawIs(t, raw);
      if !mismatch {
        CloseElement(t);
      }
    }

    lemma InStack(t: Tag)
      requires Inv() && t in tagStack
      ensures Buffered(t) && t in tags
    {
    }

    method CloseElement(t: Tag)
      requires Inv() && Settled() && tagStack != [] && t == tagStack[|tagStack| - 1]
      modifies this`tagStack, this`scopes, this`freeTags, this`freeBindings, this`trail
      modifies t`bindings, t`end, prefixes`binding, Uris()
      ensures Inv() && Settled() && trail == old(trail)[..t.start] && Reported(t)
      ensures tagStack == old(tagStack)[..|old(tagStack)| - 1] && scopes == old(scopes)[..|old(scopes)| - 1]
    {
      hide Inv, Owns, SettledAt, Reported;
      RebuildName(t);
      PopTag();
      PopBindings(t);
      FreeTag(t);
    }

    /** An empty-element tag: the handlers get the name, and every prefix is bound again as before the tag. */
    method EmptyElement(name: Octets, raw: Octets, decls: seq<(Prefix, Octets)>, p: Prefix?, default: Prefix)
      returns (error: Option<NsError>, t: Tag, ghost inner: seq<Decl>)
      requires Inv() && Settled() && 0 !in name && default in prefixes && (p != null ==> p in prefixes && 0x3A in name)
      requires forall k :: 0 <= k < |decls| ==> decls[k].0 in prefixes
      modifies this`freeTags, this`tags, this`freeBindings, this`binds, this`trail
      modifies binds, prefixes`binding, tags, tagStack, Uris(), Bufs()
      ensures Inv()
      ensures FirstRefusal(decls).Some? ==> error == FirstRefusal(decls)
      ensures FirstRefusal(decls).None? ==>
                && DeclaresAll(old(trail), inner, decls)
                && error == if NameFor(inner, name, p, default).None? then Some(UnboundPrefix) else None
      ensures error.None? ==>
                && Settled() && trail == old(trail) && Reported(t) && NameFor(inner, name, p, default) == Some(t.started)
      ensures error.None? ==> forall q :: q in old(prefixes) ==> q.binding == old(q.binding)
      ensures GrowsAll()
    {
      hide Inv, Starting, Named, Reported, DeclaresAll, NameFor, FirstRefusal, SettledAt;
      t := NewTag(name, raw);
      error, inner := ShortElement(t, decls, p, default);
    }

    /** The declarations of a tag that is not open go out of scope, and the tag is free. */
    method DropElement(t: Tag)
      requires Inv() && Spare(t) && SettledAt(t.start) && Owns(t, trail) && t.end == |trail| && Above(t.start)
      modifies this`freeBindings, this`freeTags, this`trail, prefixes`binding, t`bindings, t`end
      ensures Inv() && trail == old(trail)[..t.start] && |trail| == t.start && SettledAt(t.start)
    {
      hide Inv, Owns, SettledAt;
      PopBindings(t);
      FreeTag(t);
    }

    lemma FrontOfDeclared(before: seq<Decl>, now: seq<Decl>, decls: seq<(Prefix, Octets)>)
      requires DeclaresAll(before, now, decls)
      ensures |before| <= |now| && now[..|before|] == before
    {
    }

    /** The element is named, and its declarations go out of scope at once. */
    method ShortElement(t: Tag, decls: seq<(Prefix, Octets)>, p: Prefix?, default: Prefix)
      returns (error: Option<NsError>, ghost inner: seq<Decl>)
      requires Inv() && SettledAt(t.start) && Starting(t) && t.start == |trail|
      requires default in prefixes && (p != null ==> p in prefixes && 0x3A in t.name)
      requires forall k :: 0 <= k < |decls| ==> decls[k].0 in prefixes
      modifies this`freeBindings, this`freeTags, this`binds, this`trail, binds, prefixes`binding, Uris()
      modifies tagStack`str, t`bindings, t`end, t`local, t`uriLen, t`prefixName, t`started, t`useAt, t`str
      ensures Inv() && (FirstRefusal(decls).Some? ==> error == FirstRefusal(decls))
      ensures FirstRefusal(decls).None? ==>
                && DeclaresAll(old(trail), inner, decls)
                && error == if NameFor(inner, t.name, p, default).None? then Some(UnboundPrefix) else None
      ensures error.None? ==>
                && Settled() && trail == old(trail) && Reported(t)
                && NameFor(inner, t.name, p, default) == Some(t.started)
      ensures error.None? ==> forall q :: q in old(prefixes) ==> q.binding == old(q.binding)
      ensures GrowsAll()
    {
      hide Inv, Starting, Named, Buffered, Owns, Reported, DeclaresAll, NameFor, FirstRefusal;
      hide SettledAt;
      ghost var before := trail;
      SpareNow(t);
      BoundNow();
      AboveNow();
      error := NameElement(t, decls, p, default);
      inner := trail;
      if error.None? {
        FrontOfDeclared(before, trail, decls);
        DropElement(t);
        BoundNow();
      }
    }

    lemma AboveNow()
      requires Inv() && SettledAt(|trail|)
      ensures Above(|trail|)
    {
    }

    lemma BoundNow()
      requires Inv()
      ensures forall q :: q in prefixes ==> q.binding == Innermost(trail, q)
    {
    }

    // ----- raw names

    /** The raw names of the elements from i on are stored; before that, the stored ones come first. */
    ghost predicate StoredFrom(i: nat)
      requires i <= |tagStack|
      reads this`tagStack, this`trail, this`scopes, tagStack`start, tagStack`end, tagStack`started, tagStack`rawName
      reads tagStack`rawStored
    {
      && LeadsTo(|trail|) && NamesKept()
      && (forall k, j :: 0 <= k < j < i && tagStack[j].rawStored ==> tagStack[k].rawStored)
      && (forall k :: i <= k < |tagStack| ==> tagStack[k].rawStored)
    }

    /** The raw names of the open elements are copied behind their names, before the parse buffer is reused. */
    method StoreRawNames()
      requires Inv() && Settled()
      modifies tagStack, Bufs()
      ensures Inv() && Settled() && tagStack == old(tagStack) && scopes == old(scopes)
      ensures forall i :: 0 <= i < |tagStack| ==> tagStack[i].rawStored
      ensures GrowsAll()
    {
      hide Inv, StoredFrom, Settled;
      SettledFrom();
      var i: nat := |tagStack|;
      while i > 0
        invariant i <= |tagStack| && Inv() && StoredFrom(i) && GrowsAll()
      {
        if tagStack[i - 1].rawStored {
          AllStored(i);
          return;
        }
        TagAt(i - 1);
        StoreNext(i);
        i := i - 1;
      }
      AllStored(0);
    }

    lemma SettledFrom()
      requires Settled()
      ensures StoredFrom(|tagStack|)
    {
    }

    lemma AllStored(i: nat)
      requires i <= |tagStack| && StoredFrom(i) && (i > 0 ==> tagStack[i - 1].rawStored)
      ensures Settled() && forall k :: 0 <= k < |tagStack| ==> tagStack[k].rawStored
    {
    }

    method StoreNext(i: nat)
      requires 0 < i <= |tagStack| && Inv() && StoredFrom(i) && !tagStack[i - 1].rawStored
      modifies tagStack[i - 1], tagStack[i - 1].buf
      ensures Inv() && StoredFrom(i - 1) && (tagStack[i - 1].buf == old(tagStack[i - 1].buf) || fresh(tagStack[i - 1].buf))
    {
      hide Inv, LeadsTo, NamesKept;
      TagsApart();
      StoreRaw(tagStack[i - 1]);
    }

    lemma TagAt(i: nat)
      requires Inv() && i < |tagStack|
      ensures tagStack[i] in tags && tagStack[i].buf in Bufs()
    {
      hide Inv;
      TagsApart();
    }

    lemma TagsApart()
      requires Inv()
      ensures forall i, j :: 0 <= i < j < |tagStack| ==> tagStack[i] != tagStack[j]
      ensures forall i :: 0 <= i < |tagStack| ==> tagStack[i] in tags && tagStack[i].buf in Bufs()
    {
    }

    /** The raw name of one element is copied; the buffer may have to move, and the name with it. */
    method StoreRaw(t: Tag)
      requires Inv() && t in tagStack && !t.rawStored
      modifies t`buf, t`str, t`rawStored, t`raw, t.buf
      ensures Inv() && t.rawStored && (t.buf == old(t.buf) || fresh(t.buf))
    {
      hide Inv;
      RawWaits(t);
      var bufSize := t.strLen + 1 + t.rawLen;
      if bufSize > t.buf.Length {
        MoveBuf(t, bufSize);
      }
      CopyRaw(t);
      MarkStored(t);
    }

    lemma RawWaits(t: Tag)
      requires Inv() && t in tagStack && !t.rawStored
      ensures t in tags && Buffered(t) && t.raw == t.rawName && t.rawLen == |t.rawName|
    {
    }

    method MoveBuf(t: Tag, size: nat)
      requires Inv() && t in tagStack && !t.rawStored && size > t.buf.Length
      modifies t`buf, t`str
      ensures Inv() && t.buf.Length == size && fresh(t.buf)
    {
      hide Buffered, Owns, Named, Remembers, Holding, Current, Innermost;
      RawWaits(t);
      NameLength(t);
      var temp := CopyStart(t.buf, t.buf.Length, size);
      PrefixSame(t.buf[..], temp[..], t.strLen);
      SwapBuf(t, temp);
    }

    method SwapBuf(t: Tag, temp: array<byte>)
      requires Inv() && t in tagStack && !t.rawStored && temp !in Uris() && temp !in Bufs()
      requires t.strLen == |t.name| < temp.Length && temp[..t.strLen] == t.name && temp[t.strLen] == 0
      modifies t`buf, t`str
      ensures Inv() && t.buf == temp
    {
      hide Buffered, Owns, Remembers, Holding, Current, Innermost, Spelled;
      RawWaits(t);
      NoTerminator(t);
      if t.str == t.buf {
        t.str := temp;
      }
      t.buf := temp;
      BufferedNow(t);
    }

    /** The bytes of the raw name, behind the name and its terminator. */
    method CopyRaw(t: Tag)
      requires Inv() && t in tagStack && !t.rawStored && t.strLen + 1 + t.rawLen <= t.buf.Length
      requires t.raw == t.rawName && t.rawLen == |t.rawName|
      modifies t.buf
      ensures Inv() && t.buf[t.strLen + 1..t.strLen + 1 + t.rawLen] == t.rawName
    {
      hide Owns, Named, Remembers, Holding, Current, Innermost;
      var at := t.strLen + 1;
      for k := 0 to t.rawLen
        invariant Inv() && t.buf[at..at + k] == t.rawName[..k]
      {
        PutRaw(t, at + k, t.raw[k]);
        assert t.rawName[..k + 1] == t.rawName[..k] + [t.rawName[k]];
      }
      assert t.rawName[..t.rawLen] == t.rawName;
    }

    method PutRaw(t: Tag, at: nat, c: byte)
      requires Inv() && t in tagStack && !t.rawStored && t.strLen < at < t.buf.Length
      modifies t.buf
      ensures Inv() && t.buf[at] == c && forall k :: 0 <= k < t.buf.Length && k != at ==> t.buf[k] == old(t.buf[k])
    {
      hide Owns, Named, Remembers, Holding, Current, Innermost;
      RawWaits(t);
      t.buf[at] := c;
      assert t.buf[..t.strLen] == t.name;
    }

    method MarkStored(t: Tag)
      requires Inv() && t in tagStack && !t.rawStored && t.strLen + 1 + t.rawLen <= t.buf.Length
      requires t.buf[t.strLen + 1..t.strLen + 1 + t.rawLen] == t.rawName
      modifies t`rawStored, t`raw
      ensures Inv() && t.rawStored
    {
      hide Owns, Named, Remembers, Holding, Current, Innermost;
      RawWaits(t);
      t.rawStored, t.raw := true, [];
    }
  }

  lemma {:induction false} BoundTogether(trail: seq<Decl>, p: Prefix)
    ensures Innermost(trail, p) != null <==> BoundText(trail, p).Some?
    decreases |trail|
  {
    if trail != [] && trail[|trail| - 1].prefix != p {
      BoundTogether(trail[..|trail| - 1], p);
    }
  }

  lemma {:induction false} NeverBound(trail: seq<Decl>, p: Prefix)
    requires forall k :: 0 <= k < |trail| ==> trail[k].prefix != p
    ensures Innermost(trail, p) == null
    decreases |trail|
  {
    if trail != [] {
      NeverBound(trail[..|trail| - 1], p);
    }
  }

  lemma {:induction false} TextAt(trail: seq<Decl>, p: Prefix, u: nat)
    requires u < |trail| && trail[u].prefix == p && !trail[u].undeclares
    requires forall k :: u < k < |trail| ==> trail[k].prefix != p
    ensures BoundText(trail, p) == Some(trail[u].text)
    decreases |trail|
  {
    if u < |trail| - 1 {
      TextAt(trail[..|trail| - 1], p, u);
    }
  }

  lemma {:induction false} InnermostAt(trail: seq<Decl>, p: Prefix) returns (u: nat)
    requires Innermost(trail, p) != null
    ensures u < |trail| && trail[u].b == Innermost(trail, p) && trail[u].prefix == p && !trail[u].undeclares
    ensures forall k :: u < k < |trail| ==> trail[k].prefix != p
    decreases |trail|
  {
    if trail[|trail| - 1].prefix == p {
      u := |trail| - 1;
    } else {
      u := InnermostAt(trail[..|trail| - 1], p);
    }
  }
}
