/** The version-stamped table with which `storeAtts` finds prefixed attributes of equal expanded name. */
module AttributeTable {
  import opened Bytes
  import opened Common
  import opened DoubleHashing

  /** A prefix and, when one is in force, the URI its binding gives it (with the separator). */
  class BoundPrefix {
    const name: Octets
    var uri: Option<Octets>

    constructor (name: Octets, uri: Option<Octets>)
      ensures this.name == name && this.uri == uri
    {
      this.name, this.uri := name, uri;
    }
  }

  /** An attribute name; the flag is the character stored before the name. */
  class AttributeId {
    const name: Octets
    const prefix: BoundPrefix?
    var flag: byte

    constructor (name: Octets, prefix: BoundPrefix?, flag: byte)
      ensures this.name == name && this.prefix == prefix && this.flag == flag
    {
      this.name, this.prefix, this.flag := name, prefix, flag;
    }
  }

  const COLON: byte := 0x3A

  /** What follows the first colon of a qualified name. */
  function LocalPart(name: Octets): Octets
    requires COLON in name
  {
    if name[0] == COLON then name[1..] else LocalPart(name[1..])
  }

  lemma {:induction false} LocalPartIs(q: Octets, local: Octets)
    requires 0x3A !in q
    ensures LocalPart(q + [0x3A] + local) == local
    decreases |q|
  {
    var name := q + [0x3A] + local;
    if q == [] {
      assert name[1..] == local;
    } else {
      assert name[1..] == q[1..] + [0x3A] + local;
      LocalPartIs(q[1..], local);
    }
  }

  /** One attribute of a start tag, as the duplicate check sees it. */
  datatype Att =
    | Plain(name: Octets)
    | Prefixed(uri: Option<Octets>, local: Octets, prefix: Octets)

  ghost predicate Bound(a: Att) {
    a.Prefixed? && a.uri.Some?
  }

  ghost function Expanded(a: Att): Octets
    requires Bound(a)
  {
    a.uri.value + a.local
  }

  /** The hash includes the terminating null of the expanded name. */
  ghost function NameHash(salt: nat, a: Att): nat
    requires Bound(a)
  {
    HashOn(salt, Expanded(a) + [0])
  }

  /** The namespace options of a parser. */
  datatype Triplets = NoTriplets | WithTriplets(separator: byte)

  /** The name kept for the application: with triplets the prefix is appended. */
  ghost function Stored(a: Att, t: Triplets): Octets
    requires Bound(a)
  {
    match t
    case NoTriplets => Expanded(a)
    case WithTriplets(separator) => Expanded(a) + [separator] + a.prefix
  }

  /** The comparison of the table: equal hashes, and the new name is a prefix of the stored one. */
  ghost predicate Clash(a: Att, b: Att, salt: nat, t: Triplets)
    requires Bound(a) && Bound(b)
  {
    NameHash(salt, a) == NameHash(salt, b) && Expanded(b) <= Stored(a, t)
  }

  ghost predicate Duplicated(atts: seq<Att>, i: nat, salt: nat, t: Triplets)
    requires i < |atts| && Bound(atts[i])
  {
    exists j :: 0 <= j < i && Bound(atts[j]) && Clash(atts[j], atts[i], salt, t)
  }

  ghost predicate Bad(atts: seq<Att>, i: nat, salt: nat, t: Triplets)
    requires i < |atts|
  {
    atts[i].Prefixed? && (atts[i].uri.None? || Duplicated(atts, i, salt, t))
  }

  datatype Outcome = Distinct | Unbound(at: nat) | Duplicate(at: nat)

  /** The outcome is the first fault in document order, or none. */
  ghost predicate IsVerdict(r: Outcome, atts: seq<Att>, salt: nat, t: Triplets) {
    match r
    case Distinct => forall i :: 0 <= i < |atts| ==> !Bad(atts, i, salt, t)
    case Unbound(at) =>
      && at < |atts| && Bad(atts, at, salt, t) && atts[at].uri.None?
      && forall i :: 0 <= i < at ==> !Bad(atts, i, salt, t)
    case Duplicate(at) =>
      && at < |atts| && Bad(atts, at, salt, t) && atts[at].uri.Some?
      && forall i :: 0 <= i < at ==> !Bad(atts, i, salt, t)
  }

  ghost function Count(atts: seq<Att>): nat {
    if atts == [] then 0 else Count(atts[1..]) + (if atts[0].Prefixed? then 1 else 0)
  }

  const INIT_ATTS_VERSION: nat := 0xFFFFFFFF

  datatype NsAtt = NsAtt(version: nat, hash: nat, uriName: Octets)

  ghost function Live(slots: seq<NsAtt>, version: nat): set<nat> {
    set j | 0 <= j < |slots| && slots[j].version == version
  }

  /** Attribute a sits in a live slot that its hash reaches. */
  ghost predicate Entered(slots: seq<NsAtt>, power: nat, version: nat, a: Att, salt: nat, t: Triplets)
    requires power >= 3 && Bound(a)
  {
    var h := NameHash(salt, a);
    exists j :: 0 <= j < |slots| && slots[j] == NsAtt(version, h, Stored(a, t))
      && Reached(Live(slots, version), power, h, j)
  }

  /** The live slots hold exactly the prefixed attributes among the first i. */
  ghost predicate Holds(slots: seq<NsAtt>, power: nat, version: nat, atts: seq<Att>, i: nat, salt: nat, t: Triplets)
    requires power >= 3 && i <= |atts|
  {
    && (forall k :: 0 <= k < i && atts[k].Prefixed? ==>
          Bound(atts[k]) && Entered(slots, power, version, atts[k], salt, t))
    && (forall j :: 0 <= j < |slots| && slots[j].version == version ==>
          exists k :: 0 <= k < i && Bound(atts[k])
            && slots[j].hash == NameHash(salt, atts[k]) && slots[j].uriName == Stored(atts[k], t))
    && |Live(slots, version)| + Count(atts[i..]) <= Count(atts)
  }

  lemma HoldsNone(slots: seq<NsAtt>, power: nat, version: nat, atts: seq<Att>, salt: nat, t: Triplets)
    requires power >= 3
    requires forall j :: 0 <= j < |slots| ==> slots[j].version != version
    ensures Holds(slots, power, version, atts, 0, salt, t)
  {
  }

  lemma CountStep(atts: seq<Att>, i: nat)
    requires i < |atts|
    ensures Count(atts[i..]) == Count(atts[i + 1..]) + (if atts[i].Prefixed? then 1 else 0)
  {
  }

  lemma EmptyCount(atts: seq<Att>, i: nat)
    requires i <= |atts|
    ensures i == |atts| ==> Count(atts[i..]) == 0
  {
  }

  lemma HoldsPlain(slots: seq<NsAtt>, power: nat, version: nat, atts: seq<Att>, i: nat, salt: nat, t: Triplets)
    requires power >= 3 && i < |atts| && atts[i].Plain?
    requires Holds(slots, power, version, atts, i, salt, t)
    ensures Holds(slots, power, version, atts, i + 1, salt, t)
  {
    hide Entered, NameHash, Stored, Live;
    CountStep(atts, i);
  }

  lemma EnteredKept(slots: seq<NsAtt>, power: nat, version: nat, a: Att, salt: nat, t: Triplets, j: nat, e: NsAtt)
    requires power >= 3 && Bound(a) && Entered(slots, power, version, a, salt, t)
    requires j < |slots| && slots[j].version != version && e.version == version
    ensures Entered(slots[j := e], power, version, a, salt, t)
  {
    hide NameHash, Stored, Reached;
    var h := NameHash(salt, a);
    var i :| 0 <= i < |slots| && slots[i] == NsAtt(version, h, Stored(a, t))
      && Reached(Live(slots, version), power, h, i);
    ReachedGrows(Live(slots, version), Live(slots[j := e], version), power, h, i);
    assert slots[j := e][i] == slots[i];
  }

  lemma HoldsAdd(slots: seq<NsAtt>, power: nat, version: nat, atts: seq<Att>, i: nat, salt: nat, t: Triplets,
                 j: nat, n: nat)
    requires power >= 3 && i < |atts| && Bound(atts[i])
    requires Holds(slots, power, version, atts, i, salt, t)
    requires j < |slots| && slots[j].version != version
    requires var h := NameHash(salt, atts[i]); j == ProbeAt(h, power, n) && Busy(Live(slots, version), power, h, n)
    ensures var e := NsAtt(version, NameHash(salt, atts[i]), Stored(atts[i], t));
            Holds(slots[j := e], power, version, atts, i + 1, salt, t)
  {
    hide NameHash, Stored, ProbeAt, Reached, Entered;
    var h := NameHash(salt, atts[i]);
    var e := NsAtt(version, h, Stored(atts[i], t));
    var after := slots[j := e];
    CountStep(atts, i);
    assert Live(after, version) == Live(slots, version) + {j};
    forall k | 0 <= k < i + 1 && atts[k].Prefixed?
      ensures Bound(atts[k]) && Entered(after, power, version, atts[k], salt, t)
    {
      if k < i {
        EnteredKept(slots, power, version, atts[k], salt, t, j, e);
      } else {
        EnteredNew(slots, power, version, atts[i], salt, t, j, n);
      }
    }
  }

  lemma EnteredNew(slots: seq<NsAtt>, power: nat, version: nat, a: Att, salt: nat, t: Triplets, j: nat, n: nat)
    requires power >= 3 && Bound(a) && j < |slots| && slots[j].version != version
    requires var h := NameHash(salt, a); j == ProbeAt(h, power, n) && Busy(Live(slots, version), power, h, n)
    ensures Entered(slots[j := NsAtt(version, NameHash(salt, a), Stored(a, t))], power, version, a, salt, t)
  {
    hide NameHash, Stored, ProbeAt;
    var h := NameHash(salt, a);
    var after := slots[j := NsAtt(version, h, Stored(a, t))];
    assert Busy(Live(after, version), power, h, n);
    assert after[j] == NsAtt(version, h, Stored(a, t));
  }

  lemma LiveBound(slots: seq<NsAtt>, power: nat, version: nat, atts: seq<Att>, i: nat, salt: nat, t: Triplets)
    requires power >= 3 && i <= |atts| && Holds(slots, power, version, atts, i, salt, t)
    ensures |Live(slots, version)| <= Count(atts)
  {
    hide Entered, NameHash, Stored, Live, Count;
  }

  /** A live slot that passes the comparison belongs to an earlier clashing attribute. */
  lemma ClashFound(slots: seq<NsAtt>, power: nat, version: nat, atts: seq<Att>, i: nat, salt: nat, t: Triplets, j: nat)
    requires power >= 3 && i < |atts| && Bound(atts[i])
    requires Holds(slots, power, version, atts, i, salt, t)
    requires j < |slots| && slots[j].version == version
    requires slots[j].hash == NameHash(salt, atts[i]) && Expanded(atts[i]) <= slots[j].uriName
    ensures Duplicated(atts, i, salt, t)
  {
    hide NameHash, Stored, Entered;
  }

  /** No slot among the first n probes of hash h holds that hash with a name that e begins. */
  ghost predicate NoMatch(slots: seq<NsAtt>, power: nat, h: nat, n: nat, e: Octets)
    requires power >= 3 && |slots| == Pow2(power)
  {
    forall k :: 0 <= k < n ==> var s := slots[ProbeAt(h, power, k)]; !(s.hash == h && e <= s.uriName)
  }

  lemma EnteredCompared(slots: seq<NsAtt>, power: nat, version: nat, a: Att, salt: nat, t: Triplets,
                        n: nat, e: Octets)
    requires power >= 3 && |slots| == Pow2(power) && Bound(a)
    requires Entered(slots, power, version, a, salt, t)
    requires var h := NameHash(salt, a);
             slots[ProbeAt(h, power, n)].version != version && NoMatch(slots, power, h, n, e)
    ensures !(e <= Stored(a, t))
  {
    hide NameHash, Stored, ProbeAt, Reached, Busy;
    var h := NameHash(salt, a);
    var j :| 0 <= j < |slots| && slots[j] == NsAtt(version, h, Stored(a, t))
      && Reached(Live(slots, version), power, h, j);
    ReachedBefore(Live(slots, version), power, h, j, n);
  }

  /** No earlier attribute clashes once the probe sequence has been compared up to a free slot. */
  lemma NoClashMissed(slots: seq<NsAtt>, power: nat, version: nat, atts: seq<Att>, i: nat, salt: nat, t: Triplets,
                      n: nat)
    requires power >= 3 && |slots| == Pow2(power) && i < |atts| && Bound(atts[i])
    requires Holds(slots, power, version, atts, i, salt, t)
    requires var h := NameHash(salt, atts[i]);
             slots[ProbeAt(h, power, n)].version != version && NoMatch(slots, power, h, n, Expanded(atts[i]))
    ensures !Duplicated(atts, i, salt, t)
  {
    hide NameHash, Stored, ProbeAt, Reached, Expanded, NoMatch, Live, Entered, Busy, Count;
    forall q | 0 <= q < i && Bound(atts[q]) && NameHash(salt, atts[q]) == NameHash(salt, atts[i])
      ensures !(Expanded(atts[i]) <= Stored(atts[q], t))
    {
      EnteredCompared(slots, power, version, atts[q], salt, t, n, Expanded(atts[i]));
    }
  }

  /** What the check reads of an attribute: its flag is 2 when it is prefixed. */
  ghost function AttOf(a: AttributeId): Att
    requires a.flag == 2 ==> a.prefix != null && COLON in a.name
    reads a, a.prefix
  {
    if a.flag == 2 then Prefixed(a.prefix.uri, LocalPart(a.name), a.prefix.name) else Plain(a.name)
  }

  /** The attribute objects, from index i on, still have the flags that `entries` was read from. */
  ghost predicate Reads(ids: seq<AttributeId>, entries: seq<Att>, i: nat)
    requires i <= |ids|
    reads ids, set k | 0 <= k < |ids| :: ids[k].prefix
  {
    && |entries| == |ids|
    && forall k :: i <= k < |ids| ==>
         && (ids[k].flag == 2 ==> ids[k].prefix != null && COLON in ids[k].name)
         && entries[k] == AttOf(ids[k])
  }

  /** The name reported to the application. */
  ghost function Name(a: Att, t: Triplets): Octets {
    if a.Plain? then a.name else if a.uri.Some? then Stored(a, t) else []
  }

  /** The first i attributes are faultless, named, and have their flags cleared. */
  ghost predicate Done(ids: seq<AttributeId>, atts: seq<Att>, names: seq<Octets>, i: nat, salt: nat, t: Triplets)
    requires i <= |ids|
    reads ids
  {
    && |atts| == |ids| && |names| == i
    && forall k :: 0 <= k < i ==>
         !Bad(atts, k, salt, t) && ids[k].flag == 0 && names[k] == Name(atts[k], t)
  }

  lemma DoneNone(ids: seq<AttributeId>, atts: seq<Att>, salt: nat, t: Triplets)
    requires |atts| == |ids|
    ensures Done(ids, atts, [], 0, salt, t)
  {
  }

  lemma FaultVerdicts(ids: seq<AttributeId>, atts: seq<Att>, names: seq<Octets>, i: nat, salt: nat, t: Triplets)
    requires i < |atts| && |atts| == |ids| && Done(ids, atts, names, i, salt, t)
    ensures Bad(atts, i, salt, t) ==>
              IsVerdict(if atts[i].uri.None? then Unbound(i) else Duplicate(i), atts, salt, t)
  {
  }

  /** Append characters and extend the hash with each of them. */
  method AppendHashed(salt: nat, s: Octets, h: nat, more: Octets) returns (r: Octets, g: nat)
    requires h == HashOn(salt, s)
    ensures r == s + more && g == HashOn(salt, r)
  {
    hide HashOn, CharHash;
    r, g := s, h;
    for j := 0 to |more|
      invariant r == s + more[..j] && g == HashOn(salt, r)
    {
      HashAppend(salt, r, more[j]);
      r, g := r + [more[j]], CharHash(g, more[j]);
    }
  }

  /** `while (*s++ != ':');` */
  method SkipPrefix(name: Octets) returns (k: nat)
    requires COLON in name
    ensures k <= |name| && name[k..] == LocalPart(name)
  {
    k := 0;
    while name[k] != COLON
      invariant 0 <= k < |name| && COLON in name[k..] && LocalPart(name[k..]) == LocalPart(name)
      decreases |name| - k
    {
      assert name[k..][1..] == name[k + 1..];
      k := k + 1;
    }
    assert name[k..][1..] == name[k + 1..];
    k := k + 1;
  }

  /** The URI, then the local part; the hash also takes the terminating null. */
  method ExpandName(salt: nat, uri: Octets, name: Octets) returns (expanded: Octets, h: nat)
    requires COLON in name
    ensures expanded == uri + LocalPart(name)
    ensures h == HashOn(salt, expanded + [0])
  {
    expanded, h := AppendHashed(salt, [], salt, uri);
    var k := SkipPrefix(name);
    expanded, h := AppendHashed(salt, expanded, h, name[k..]);
    HashAppend(salt, expanded, 0);
    h := CharHash(h, 0);
  }

  lemma HashAppend(salt: nat, s: Octets, c: byte)
    ensures HashOn(salt, s + [c]) == CharHash(HashOn(salt, s), c)
  {
  }

  /** `(n << 1) >> power` is zero exactly when the table has more than 2n slots. */
  lemma TwiceFits(n: nat, power: nat)
    ensures n / Pow2(power) == 0 <==> n < Pow2(power)
  {
    MulSign(Pow2(power), n / Pow2(power));
  }

  class NsTable {
    var nsAtts: array<NsAtt>
    var nsAttsVersion: nat
    var nsAttsPower: nat
    const salt: nat

    /** No slot is stamped with a version that is still to be used before the next wrap-around. */
    ghost predicate Valid()
      reads this, nsAtts
    {
      || (nsAttsPower == 0 && nsAtts.Length == 0 && nsAttsVersion == 0)
      || (nsAttsPower >= 3 && nsAtts.Length == Pow2(nsAttsPower)
            && forall j :: 0 <= j < nsAtts.Length ==> nsAtts[j].version >= nsAttsVersion)
    }

    constructor (salt: nat)
      ensures Valid() && this.salt == salt && fresh(nsAtts)
    {
      this.salt := salt;
      nsAttsVersion, nsAttsPower := 0, 0;
      nsAtts := new NsAtt[0];
    }

    /** Choose the size and the version for an element with nPrefixes prefixed attributes. */
    method Prepare(nPrefixes: nat) returns (version: nat)
      requires Valid() && nPrefixes > 0
      modifies this, nsAtts
      ensures Valid() && nsAttsPower >= 3 && 2 * nPrefixes < nsAtts.Length
      ensures nsAtts == old(nsAtts) || fresh(nsAtts)
      ensures version == nsAttsVersion && forall j :: 0 <= j < nsAtts.Length ==> nsAtts[j].version != version
      ensures 2 * nPrefixes < old(nsAtts.Length) && old(nsAttsVersion) != 0 ==>
                nsAtts == old(nsAtts) && nsAtts[..] == old(nsAtts[..]) && version == old(nsAttsVersion) - 1
      ensures !(2 * nPrefixes < old(nsAtts.Length) && old(nsAttsVersion) != 0) ==>
                version == INIT_ATTS_VERSION - 1
    {
      version := nsAttsVersion;
      TwiceFits(2 * nPrefixes, nsAttsPower);
      if 2 * nPrefixes / Pow2(nsAttsPower) != 0 {
        GrowPower(nPrefixes);
        // the cells beyond the old ones are not initialised; only their version is set, below
        nsAtts := new NsAtt[Pow2(nsAttsPower)](_ => NsAtt(0, 0, []));
        version := 0;
      }
      if version == 0 {
        version := INIT_ATTS_VERSION;
        var j := nsAtts.Length;
        while j != 0
          invariant 0 <= j <= nsAtts.Length
          invariant forall k :: j <= k < nsAtts.Length ==> nsAtts[k].version == version
          modifies nsAtts
        {
          j := j - 1;
          nsAtts[j] := nsAtts[j].(version := version);
        }
      }
      version := version - 1;
      nsAttsVersion := version;
    }

    /** `while (nPrefixes >> nsAttsPower++);` and the minimum of 8 slots. */
    method GrowPower(nPrefixes: nat)
      modifies this`nsAttsPower
      ensures nsAttsPower >= 3 && 2 * nPrefixes < Pow2(nsAttsPower)
    {
      var more := true;
      while more
        invariant !more ==> nsAttsPower > 0 && nPrefixes < Pow2(nsAttsPower - 1)
        decreases more, nPrefixes - nsAttsPower
      {
        TwiceFits(nPrefixes, nsAttsPower);
        Pow2Exceeds(nsAttsPower);
        more := nPrefixes / Pow2(nsAttsPower) != 0;
        nsAttsPower := nsAttsPower + 1;
      }
      if nsAttsPower < 3 {
        Pow2Monotone(nsAttsPower, 3);
        nsAttsPower := 3;
      }
    }

    /** The probe loop: a clash with a live slot, or the free slot for the name. */
    method Probe(version: nat, h: nat, expanded: Octets) returns (clash: bool, j: nat, ghost n: nat)
      requires nsAttsPower >= 3 && nsAtts.Length == Pow2(nsAttsPower)
      requires |Live(nsAtts[..], version)| < nsAtts.Length
      ensures j == ProbeAt(h, nsAttsPower, n) && j < nsAtts.Length
      ensures Busy(Live(nsAtts[..], version), nsAttsPower, h, n)
      ensures clash ==> nsAtts[j].version == version && nsAtts[j].hash == h && expanded <= nsAtts[j].uriName
      ensures !clash ==> nsAtts[j].version != version && NoMatch(nsAtts[..], nsAttsPower, h, n, expanded)
    {
      hide ProbeAt, ProbeStep, Masked, Pow2;
      ProbeStart(h, nsAttsPower);
      var step: nat := 0;
      clash, j, n := false, Masked(h, nsAtts.Length), 0;
      while nsAtts[j].version == version
        invariant j == ProbeAt(h, nsAttsPower, n) && n <= nsAtts.Length
        invariant step == if n == 0 then 0 else ProbeStep(h, nsAttsPower)
        invariant Busy(Live(nsAtts[..], version), nsAttsPower, h, n)
        invariant NoMatch(nsAtts[..], nsAttsPower, h, n, expanded)
        decreases nsAtts.Length - n
      {
        if h == nsAtts[j].hash {
          if expanded <= nsAtts[j].uriName {
            clash := true;
            return;
          }
        }
        ProbesBounded(Live(nsAtts[..], version), nsAttsPower, h, n);
        if step == 0 {
          step := ProbeStep(h, nsAttsPower);
        }
        ProbeNext(h, nsAttsPower, n);
        j := if j < step then j + nsAtts.Length - step else j - step;
        n := n + 1;
      }
    }

    /** Expand and enter one prefixed attribute, unless it clashes. */
    method Enter(version: nat, a: AttributeId, uri: Octets, t: Triplets, ghost atts: seq<Att>, ghost i: nat)
      returns (clash: bool, name: Octets)
      requires Valid() && nsAttsPower >= 3 && version == nsAttsVersion && Count(atts) < nsAtts.Length
      requires i < |atts| && a.prefix != null && COLON in a.name
      requires atts[i] == Prefixed(Some(uri), LocalPart(a.name), a.prefix.name)
      requires Holds(nsAtts[..], nsAttsPower, version, atts, i, salt, t)
      modifies nsAtts
      ensures Valid()
      ensures clash <==> Duplicated(atts, i, salt, t)
      ensures !clash ==> Holds(nsAtts[..], nsAttsPower, version, atts, i + 1, salt, t) && name == Stored(atts[i], t)
    {
      hide ProbeAt, Holds, Live, NoMatch, Duplicated, Busy, Pow2;
      var expanded, h := ExpandName(salt, uri, a.name);
      LiveBound(nsAtts[..], nsAttsPower, version, atts, i, salt, t);
      var j: nat;
      ghost var n: nat;
      clash, j, n := Probe(version, h, expanded);
      if clash {
        ClashFound(nsAtts[..], nsAttsPower, version, atts, i, salt, t, j);
        name := [];
        return;
      }
      NoClashMissed(nsAtts[..], nsAttsPower, version, atts, i, salt, t, n);
      HoldsAdd(nsAtts[..], nsAttsPower, version, atts, i, salt, t, j, n);
      name := expanded;
      if t.WithTriplets? {
        name := name + [t.separator] + a.prefix.name;
      }
      ghost var before := nsAtts[..];
      nsAtts[j] := NsAtt(version, h, name);
      assert nsAtts[..] == before[j := NsAtt(version, h, name)];
    }

    /** One round of the expansion loop, for the i-th attribute. */
    method ExpandOne(version: nat, a: AttributeId, i: nat, t: Triplets, ghost atts: seq<Att>)
      returns (r: Outcome, name: Octets)
      requires Valid() && nsAttsPower >= 3 && version == nsAttsVersion && Count(atts) < nsAtts.Length
      requires i < |atts| && Holds(nsAtts[..], nsAttsPower, version, atts, i, salt, t)
      requires a.flag == 2 ==> a.prefix != null && COLON in a.name
      requires atts[i] == AttOf(a)
      modifies nsAtts, a
      ensures Valid() && a.flag == 0
      ensures r.Distinct? ==> Holds(nsAtts[..], nsAttsPower, version, atts, i + 1, salt, t)
      ensures r.Distinct? ==> !Bad(atts, i, salt, t) && name == Name(atts[i], t)
      ensures !r.Distinct? ==> Bad(atts, i, salt, t) && atts[i].Prefixed?
      ensures !r.Distinct? ==> r == if atts[i].uri.None? then Unbound(i) else Duplicate(i)
    {
      hide Holds, NameHash, Stored, Pow2, Duplicated, Count;
      var prefixed := a.flag == 2;
      a.flag := 0;
      name := a.name;
      if prefixed {
        if a.prefix.uri.None? {
          return Unbound(i), name;
        }
        var clash;
        clash, name := Enter(version, a, a.prefix.uri.value, t, atts, i);
        if clash {
          return Duplicate(i), name;
        }
      } else {
        HoldsPlain(nsAtts[..], nsAttsPower, version, atts, i, salt, t);
      }
      r := Distinct;
    }

    /** The round as seen by the whole list. */
    method ExpandAt(ids: seq<AttributeId>, i: nat, version: nat, known: seq<Octets>, t: Triplets,
                    ghost atts: seq<Att>)
      returns (r: Outcome, names: seq<Octets>)
      requires Valid() && nsAttsPower >= 3 && version == nsAttsVersion && Count(atts) < nsAtts.Length
      requires i < |ids| && Reads(ids, atts, i) && Done(ids, atts, known, i, salt, t)
      requires Holds(nsAtts[..], nsAttsPower, version, atts, i, salt, t)
      requires forall i, j :: 0 <= i < j < |ids| ==> ids[i] != ids[j]
      modifies nsAtts, ids[i]
      ensures Valid()
      ensures r.Distinct? ==> Holds(nsAtts[..], nsAttsPower, version, atts, i + 1, salt, t)
      ensures r.Distinct? ==> Reads(ids, atts, i + 1) && Done(ids, atts, names, i + 1, salt, t)
      ensures !r.Distinct? ==> IsVerdict(r, atts, salt, t)
    {
      hide Holds, Name, Pow2, Bad, Count, Live;
      FaultVerdicts(ids, atts, known, i, salt, t);
      var name;
      r, name := ExpandOne(version, ids[i], i, t, atts);
      names := known + [name];
    }

    /** Expand the names up to the last prefixed one. */
    method ExpandPrefixed(ids: seq<AttributeId>, nPrefixes: nat, t: Triplets, ghost atts: seq<Att>)
      returns (r: Outcome, i: nat, names: seq<Octets>)
      requires Valid() && Reads(ids, atts, 0) && nPrefixes == Count(atts) > 0
      requires forall i, j :: 0 <= i < j < |ids| ==> ids[i] != ids[j]
      modifies this, nsAtts, ids
      ensures Valid() && (nsAtts == old(nsAtts) || fresh(nsAtts))
      ensures !r.Distinct? ==> IsVerdict(r, atts, salt, t)
      ensures r.Distinct? ==> i <= |ids| && Count(atts[i..]) == 0
      ensures r.Distinct? ==> Reads(ids, atts, i) && Done(ids, atts, names, i, salt, t)
    {
      hide Holds, Name, Pow2, Bad, Count, Done, Live;
      var left := nPrefixes;
      i, names := 0, [];
      var version := Prepare(left);
      HoldsNone(nsAtts[..], nsAttsPower, version, atts, salt, t);
      assert atts[0..] == atts;
      DoneNone(ids, atts, salt, t);
      while i < |ids|
        invariant 0 <= i <= |ids| && left == Count(atts[i..])
        invariant Valid() && nsAttsPower >= 3 && version == nsAttsVersion && Count(atts) < nsAtts.Length
        invariant Holds(nsAtts[..], nsAttsPower, version, atts, i, salt, t)
        invariant Reads(ids, atts, i) && Done(ids, atts, names, i, salt, t)
        modifies nsAtts, ids
      {
        CountStep(atts, i);
        var prefixed := ids[i].flag == 2;
        r, names := ExpandAt(ids, i, version, names, t, atts);
        if !r.Distinct? {
          return;
        }
        i := i + 1;
        if prefixed {
          left := left - 1;
          if left == 0 {
            break;
          }
        }
      }
      EmptyCount(atts, i);
      r := Distinct;
    }

    /** Clear the flags of the attributes after the last prefixed one. */
    method ClearRest(ids: seq<AttributeId>, start: nat, known: seq<Octets>, t: Triplets, ghost atts: seq<Att>)
      returns (names: seq<Octets>)
      requires start <= |ids| && Reads(ids, atts, start) && Count(atts[start..]) == 0
      requires Done(ids, atts, known, start, salt, t)
      requires forall i, j :: 0 <= i < j < |ids| ==> ids[i] != ids[j]
      modifies ids
      ensures Done(ids, atts, names, |ids|, salt, t)
    {
      hide Stored, Duplicated, Count;
      names := known;
      var i := start;
      while i < |ids|
        invariant 0 <= i <= |ids| && Count(atts[i..]) == 0
        invariant Reads(ids, atts, i) && Done(ids, atts, names, i, salt, t)
        modifies ids
      {
        CountStep(atts, i);
        ids[i].flag := 0;
        names := names + [ids[i].name];
        i := i + 1;
      }
    }

    /** The second half of `storeAtts`: expand prefixed names, report the first fault, clear the flags. */
    method CheckNames(ids: seq<AttributeId>, declared: seq<AttributeId>, nPrefixes: nat, t: Triplets,
                      ghost atts: seq<Att>)
      returns (r: Outcome, names: seq<Octets>)
      requires Valid() && Reads(ids, atts, 0) && nPrefixes == Count(atts)
      requires forall i, j :: 0 <= i < j < |ids| ==> ids[i] != ids[j]
      modifies this, nsAtts, ids, declared
      ensures Valid() && (nsAtts == old(nsAtts) || fresh(nsAtts))
      ensures IsVerdict(r, atts, salt, t)
      ensures r.Distinct? ==> (forall a :: a in ids || a in declared ==> a.flag == 0)
      ensures r.Distinct? ==> |names| == |ids| && forall k :: 0 <= k < |ids| ==> names[k] == Name(atts[k], t)
    {
      hide Count, Bad, Name;
      assert atts[0..] == atts;
      var i := 0;
      names := [];
      if nPrefixes != 0 {
        r, i, names := ExpandPrefixed(ids, nPrefixes, t, atts);
        if !r.Distinct? {
          return;
        }
      }
      names := ClearRest(ids, i, names, t, atts);
      var b := 0;
      while b < |declared|
        invariant 0 <= b <= |declared|
        invariant forall a :: a in ids || a in declared[..b] ==> a.flag == 0
        modifies declared
      {
        declared[b].flag := 0;
        b := b + 1;
      }
      r := Distinct;
    }
  }

  /** The name that the application gets for an attribute q:local whose prefix is bound to a text. */
  lemma AttributeNamed(a: AttributeId, q: Octets, local: Octets, text: Octets, t: Triplets)
    requires 0x3A !in q && a.name == q + [0x3A] + local && a.flag == 2
    requires a.prefix != null && a.prefix.uri == Some(text)
    ensures Name(AttOf(a), t) == text + local + if t.WithTriplets? then [t.separator] + a.prefix.name else []
  {
    LocalPartIs(q, local);
  }

  /** Two prefixed attributes with equal expanded names never pass the check. */
  lemma EqualNamesReported(r: Outcome, atts: seq<Att>, i: nat, j: nat, salt: nat, t: Triplets)
    requires IsVerdict(r, atts, salt, t)
    requires i < j < |atts| && Bound(atts[i]) && Bound(atts[j]) && Expanded(atts[i]) == Expanded(atts[j])
    ensures !r.Distinct? && r.at <= j
  {
    assert Clash(atts[i], atts[j], salt, t);
    assert Bad(atts, j, salt, t);
  }

  /** With pairwise different hashes nothing is reported as a duplicate. */
  lemma DifferentHashesPass(r: Outcome, atts: seq<Att>, salt: nat, t: Triplets)
    requires IsVerdict(r, atts, salt, t)
    requires forall i, j :: 0 <= i < j < |atts| && Bound(atts[i]) && Bound(atts[j]) ==>
               NameHash(salt, atts[i]) != NameHash(salt, atts[j])
    ensures !r.Duplicate?
    ensures r.Distinct? <==> forall i :: 0 <= i < |atts| && atts[i].Prefixed? ==> Bound(atts[i])
  {
    hide NameHash, Stored, Expanded;
    assert r.Unbound? ==> atts[r.at].Prefixed? && !Bound(atts[r.at]);
    forall i | 0 <= i < |atts| && atts[i].Prefixed? && !Bound(atts[i])
      ensures Bad(atts, i, salt, t)
    {
    }
  }

  /** Two attributes with equal expanded names. */
  ghost predicate Repeated(atts: seq<Att>) {
    exists i, j :: 0 <= i < j < |atts| && Bound(atts[i]) && Bound(atts[j]) && Expanded(atts[i]) == Expanded(atts[j])
  }

  /** A later name has the hash of an earlier, different one and is the beginning of what is stored for that. */
  ghost predicate Collides(atts: seq<Att>, salt: nat, t: Triplets) {
    exists i, j :: 0 <= i < j < |atts| && Bound(atts[i]) && Bound(atts[j])
                   && Expanded(atts[i]) != Expanded(atts[j]) && Clash(atts[i], atts[j], salt, t)
  }

  /** With all prefixes bound, a duplicate is reported exactly when two names are equal or collide. */
  lemma DuplicateMeans(r: Outcome, atts: seq<Att>, salt: nat, t: Triplets)
    requires IsVerdict(r, atts, salt, t)
    requires forall i :: 0 <= i < |atts| && atts[i].Prefixed? ==> Bound(atts[i])
    ensures r.Duplicate? <==> Repeated(atts) || Collides(atts, salt, t)
  {
    hide NameHash, Clash;
    if r.Duplicate? {
      var j :| 0 <= j < r.at && Bound(atts[j]) && Clash(atts[j], atts[r.at], salt, t);
      assert Expanded(atts[j]) == Expanded(atts[r.at]) ==> Repeated(atts);
    }
    if Repeated(atts) {
      var i, j :| 0 <= i < j < |atts| && Bound(atts[i]) && Bound(atts[j]) && Expanded(atts[i]) == Expanded(atts[j]);
      EqualNamesReported(r, atts, i, j, salt, t);
    } else if Collides(atts, salt, t) {
      var i, j :| 0 <= i < j < |atts| && Bound(atts[i]) && Bound(atts[j]) && Clash(atts[i], atts[j], salt, t);
      assert Bad(atts, j, salt, t);
    }
  }

  /** p:ab and p:a, with p bound to u and no separator. */
  const PREFIXED: seq<Att> := [Prefixed(Some([0x75]), [0x61, 0x62], [0x70]), Prefixed(Some([0x75]), [0x61], [0x70])]

  /** For this salt two different names are reported as a duplicate. */
  lemma FalseDuplicate(r: Outcome)
    requires IsVerdict(r, PREFIXED, 1060804791, NoTriplets)
    ensures r == Duplicate(1) && !Repeated(PREFIXED)
  {
    assert Expanded(PREFIXED[0]) == [0x75, 0x61, 0x62] && Expanded(PREFIXED[1]) == [0x75, 0x61];
    EqualHashes();
    assert !Duplicated(PREFIXED, 0, 1060804791, NoTriplets);
    assert Clash(PREFIXED[0], PREFIXED[1], 1060804791, NoTriplets);
    assert Duplicated(PREFIXED, 1, 1060804791, NoTriplets);
    assert Bad(PREFIXED, 1, 1060804791, NoTriplets);
  }

  /** The hash of ua does not change when a b follows. */
  lemma EqualHashes()
    ensures HashOn(1060804791, [0x75, 0x61] + [0]) == HashOn(1060804791, [0x75, 0x61, 0x62] + [0])
  {
    hide CharHash, HashOn;
    var h, ua: Octets, uab: Octets := 1060804791, [0x75, 0x61], [0x75, 0x61, 0x62];
    HashMore(h, [], 0x75);
    HashMore(h, ua[..1], 0x61);
    HashMore(h, ua, 0x62);
    HashMore(h, ua, 0);
    HashMore(h, uab, 0);
    assert [] + [ua[0]] == ua[..1] && ua[..1] + [ua[1]] == ua && ua + [uab[2]] == uab;
    LowByteOfU();
    LowByteOfA();
    LowByteOfB();
    HashStep(h, 0x75, 2590909925, 144);
    HashStep(2590909840, 0x61, 66254000, 209);
    HashStep(66254033, 0x62, 66254003, 209);
  }

  lemma HashMore(h: nat, s: Octets, c: byte)
    ensures HashOn(h, s + [c]) == CharHash(HashOn(h, s), c) && HashOn(h, []) == h
  {
  }

  lemma HashStep(h: nat, c: byte, t: nat, low: nat)
    requires h * 0xF4243 % 0x1_0000_0000 == t && Xor(t % 256, c, 8) == low
    ensures CharHash(h, c) == t / 256 * 256 + low
  {
  }

  lemma LastBit(a: nat, b: nat, n: nat)
    ensures Xor(a, b, n + 1) == 2 * Xor(a / 2, b / 2, n) + (if a % 2 == b % 2 then 0 else 1) && Xor(a / 2, b / 2, 0) == 0
  {
  }

  lemma LowByteOfU()
    ensures Xor(229, 0x75, 8) == 144
  {
    hide Xor, Pow2;
    LastBit(1, 0, 0);
    LastBit(3, 1, 1);
    LastBit(7, 3, 2);
    LastBit(14, 7, 3);
    LastBit(28, 14, 4);
    LastBit(57, 29, 5);
    LastBit(114, 58, 6);
    LastBit(229, 117, 7);
  }

  lemma LowByteOfA()
    ensures Xor(176, 0x61, 8) == 209
  {
    hide Xor, Pow2;
    LastBit(1, 0, 0);
    LastBit(2, 1, 1);
    LastBit(5, 3, 2);
    LastBit(11, 6, 3);
    LastBit(22, 12, 4);
    LastBit(44, 24, 5);
    LastBit(88, 48, 6);
    LastBit(176, 97, 7);
  }

  lemma LowByteOfB()
    ensures Xor(179, 0x62, 8) == 209
  {
    hide Xor, Pow2;
    LastBit(1, 0, 0);
    LastBit(2, 1, 1);
    LastBit(5, 3, 2);
    LastBit(11, 6, 3);
    LastBit(22, 12, 4);
    LastBit(44, 24, 5);
    LastBit(89, 49, 6);
    LastBit(179, 98, 7);
  }

  /** The check tells exactly one thing about a list of attributes. */
  lemma VerdictUnique(r: Outcome, q: Outcome, atts: seq<Att>, salt: nat, t: Triplets)
    requires IsVerdict(r, atts, salt, t) && IsVerdict(q, atts, salt, t)
    ensures r == q
  {
  }
}
