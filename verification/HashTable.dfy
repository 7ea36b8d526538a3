/** The open-addressing symbol table: `lookup`, its rehash, and clearing. */
module HashTable {
  import opened Bytes
  import opened DoubleHashing

  type Key = Octets

  /** An entry; the records kept in a table all start with their name. */
  class Named {
    const name: Key

    constructor (name: Key)
      ensures this.name == name
    {
      this.name := name;
    }
  }

  const INIT_POWER: nat := 6

  ghost function Occupied(slots: seq<Named?>): set<nat> {
    set i | 0 <= i < |slots| && slots[i] != null
  }

  /** Each entry is reachable from the hash of its name, and names do not repeat. */
  ghost predicate Placed(slots: seq<Named?>, power: nat, salt: nat)
    requires power >= 3 && |slots| == Pow2(power)
  {
    && (forall j :: 0 <= j < |slots| && slots[j] != null ==>
          Reached(Occupied(slots), power, HashOn(salt, slots[j].name), j))
    && (forall i, j :: 0 <= i < j < |slots| && slots[i] != null && slots[j] != null ==>
          slots[i].name != slots[j].name)
  }

  /** The finite map that the slots represent. */
  ghost predicate Represents(slots: seq<Named?>, m: map<Key, Named>) {
    && (forall j :: 0 <= j < |slots| && slots[j] != null ==> slots[j].name in m && m[slots[j].name] == slots[j])
    && (forall name :: name in m ==> m[name].name == name && m[name] in slots)
  }

  lemma OccupiedUpdate(slots: seq<Named?>, i: nat, e: Named)
    requires i < |slots| && slots[i] == null
    ensures Occupied(slots[i := e]) == Occupied(slots) + {i}
    ensures |Occupied(slots[i := e])| == |Occupied(slots)| + 1
  {
  }

  /** A probe of a null slot shows that the name is nowhere in the table. */
  lemma NullProbeMeansAbsent(slots: seq<Named?>, power: nat, salt: nat, name: Key, n: nat)
    requires power >= 3 && |slots| == Pow2(power) && Placed(slots, power, salt)
    requires var h := HashOn(salt, name);
             && Busy(Occupied(slots), power, h, n)
             && slots[ProbeAt(h, power, n)] == null
             && forall k :: 0 <= k < n ==> slots[ProbeAt(h, power, k)].name != name
    ensures forall j :: 0 <= j < |slots| && slots[j] != null ==> slots[j].name != name
  {
    hide ProbeAt, HashOn;
    var h := HashOn(salt, name);
    var free := slots[ProbeAt(h, power, n)];
    assert forall k: nat :: Busy(Occupied(slots), power, h, k) ==> k <= n;
    assert forall j :: 0 <= j < |slots| && Reached(Occupied(slots), power, h, j) && slots[j] != null ==> slots[j].name != name;
  }

  /** Filling the first free slot of a new name's probe sequence keeps every entry reachable. */
  lemma FillKeepsPlaced(slots: seq<Named?>, power: nat, salt: nat, e: Named, n: nat)
    requires power >= 3 && |slots| == Pow2(power) && Placed(slots, power, salt)
    requires Busy(Occupied(slots), power, HashOn(salt, e.name), n)
    requires slots[ProbeAt(HashOn(salt, e.name), power, n)] == null
    requires forall j :: 0 <= j < |slots| && slots[j] != null ==> slots[j].name != e.name
    ensures Placed(slots[ProbeAt(HashOn(salt, e.name), power, n) := e], power, salt)
  {
    hide ProbeAt, HashOn;
    var i := ProbeAt(HashOn(salt, e.name), power, n);
    var after := slots[i := e];
    forall j | 0 <= j < |after| && after[j] != null
      ensures Reached(Occupied(after), power, HashOn(salt, after[j].name), j)
    {
      var h := HashOn(salt, after[j].name);
      if j == i {
        assert ProbeAt(h, power, n) == j && Busy(Occupied(after), power, h, n);
      } else {
        var k: nat :| ProbeAt(h, power, k) == j && Busy(Occupied(slots), power, h, k);
        assert Busy(Occupied(after), power, h, k);
      }
    }
  }

  lemma FillRepresents(slots: seq<Named?>, i: nat, e: Named, m: map<Key, Named>)
    requires i < |slots| && slots[i] == null && e.name !in m && Represents(slots, m)
    ensures Represents(slots[i := e], m[e.name := e])
  {
    var after, m' := slots[i := e], m[e.name := e];
    assert after[i] == e;
    forall name | name in m'
      ensures m'[name].name == name && m'[name] in after
    {
      if name != e.name {
        var j :| 0 <= j < |slots| && slots[j] == m[name];
        assert after[j] == m[name];
      }
    }
  }

  lemma PresentInMap(slots: seq<Named?>, i: nat, m: map<Key, Named>)
    requires i < |slots| && slots[i] != null && Represents(slots, m)
    ensures slots[i].name in m && m[slots[i].name] == slots[i]
  {
  }

  lemma AbsentFromMap(slots: seq<Named?>, name: Key, m: map<Key, Named>)
    requires Represents(slots, m)
    requires forall j :: 0 <= j < |slots| && slots[j] != null ==> slots[j].name != name
    ensures name !in m
  {
  }

  /** The entries of `to` are those among the first i slots of `from`. */
  ghost predicate Moved(to: seq<Named?>, from: seq<Named?>, i: nat)
    requires i <= |from|
  {
    && (forall j :: 0 <= j < |to| && to[j] != null ==> exists k :: 0 <= k < i && from[k] == to[j])
    && (forall k :: 0 <= k < i && from[k] != null ==> from[k] in to)
    && |Occupied(to)| == |Occupied(from[..i])|
  }

  lemma MovedNone(to: seq<Named?>, from: seq<Named?>)
    requires forall j :: 0 <= j < |to| ==> to[j] == null
    ensures Moved(to, from, 0)
  {
  }

  lemma MovedSkip(to: seq<Named?>, from: seq<Named?>, i: nat)
    requires i < |from| && from[i] == null && Moved(to, from, i)
    ensures Moved(to, from, i + 1)
  {
    assert Occupied(from[..i + 1]) == Occupied(from[..i]);
  }

  lemma MovedOne(to: seq<Named?>, from: seq<Named?>, i: nat, j: nat)
    requires i < |from| && from[i] != null && j < |to| && to[j] == null && Moved(to, from, i)
    ensures Moved(to[j := from[i]], from, i + 1)
  {
    var after := to[j := from[i]];
    assert Occupied(from[..i + 1]) == Occupied(from[..i]) + {i};
    OccupiedUpdate(to, j, from[i]);
    forall k | 0 <= k < i + 1 && from[k] != null
      ensures from[k] in after
    {
      if k < i {
        var t :| 0 <= t < |to| && to[t] == from[k];
        assert after[t] == from[k];
      } else {
        assert after[j] == from[k];
      }
    }
  }

  lemma MovedAll(to: seq<Named?>, from: seq<Named?>, m: map<Key, Named>)
    requires Moved(to, from, |from|) && Represents(from, m)
    ensures Represents(to, m) && |Occupied(to)| == |Occupied(from)|
  {
    assert from[..|from|] == from;
    forall name | name in m
      ensures m[name] in to
    {
      var k :| 0 <= k < |from| && from[k] == m[name];
    }
  }

  lemma MovedDistinct(to: seq<Named?>, from: seq<Named?>, i: nat, power: nat, salt: nat)
    requires power >= 3 && |from| == Pow2(power) && Placed(from, power, salt)
    requires i < |from| && from[i] != null && Moved(to, from, i)
    ensures forall j :: 0 <= j < |to| && to[j] != null ==> to[j].name != from[i].name
    ensures |Occupied(to)| <= |Occupied(from)|
  {
    hide Reached;
    SubsetSize(Occupied(from[..i]), Occupied(from));
  }

  lemma AllFree(slots: seq<Named?>, power: nat, salt: nat)
    requires power >= 3 && |slots| == Pow2(power)
    requires forall j :: 0 <= j < |slots| ==> slots[j] == null
    ensures Placed(slots, power, salt) && Represents(slots, map[]) && Occupied(slots) == {}
  {
  }

  /** `used >> (power - 1)` is zero exactly when less than half of the slots are used. */
  lemma HalfFull(used: nat, power: nat)
    requires power >= 1
    ensures used / Pow2(power - 1) == 0 <==> 2 * (used + 1) <= Pow2(power)
  {
    var half := Pow2(power - 1);
    assert used == half * (used / half) + used % half;
    MulSign(half, used / half);
  }

  class HashTable {
    var v: array<Named?>
    var power: nat
    var size: nat
    var used: nat
    const salt: nat
    ghost var contents: map<Key, Named>

    ghost predicate Valid()
      reads this, v
    {
      && v.Length == size
      && (size == 0 ==> used == 0 && contents == map[])
      && (size != 0 ==>
            && power >= INIT_POWER && size == Pow2(power)
            && Placed(v[..], power, salt)
            && Represents(v[..], contents)
            && used == |Occupied(v[..])| && 2 * used <= size)
    }

    /** hashTableInit */
    constructor (salt: nat)
      ensures Valid() && contents == map[] && fresh(v)
      ensures this.salt == salt
    {
      this.salt := salt;
      v := new Named?[0];
      power, size, used := 0, 0, 0;
      contents := map[];
    }

    /** hashTableClear: every entry goes, the slots stay allocated. */
    method Clear()
      requires Valid()
      modifies this, v
      ensures Valid() && contents == map[] && v == old(v) && size == old(size)
    {
      hide Placed, Represents, Occupied;
      var i := 0;
      while i < size
        invariant 0 <= i <= size && v.Length == size
        invariant forall j :: 0 <= j < i ==> v[j] == null
        modifies v
      {
        v[i] := null;
        i := i + 1;
      }
      used := 0;
      contents := map[];
      if size != 0 {
        AllFree(v[..], power, salt);
      }
    }

    /** The probe loop of `lookup`: the entry with this name, or the free slot for it. */
    method Find(name: Key, h: nat) returns (i: nat, ghost n: nat)
      requires Valid() && size != 0 && h == HashOn(salt, name)
      ensures i == ProbeAt(h, power, n) && i < size
      ensures Busy(Occupied(v[..]), power, h, n)
      ensures v[i] != null ==> v[i].name == name
      ensures v[i] == null <==> name !in contents
      ensures v[i] != null ==> v[i] == contents[name]
    {
      hide ProbeAt, ProbeStep, HashOn, Masked, Pow2, Placed, Represents;
      ProbeStart(h, power);
      i, n := Masked(h, size), 0;
      var step: nat := 0;
      while v[i] != null
        invariant i == ProbeAt(h, power, n) && n <= size
        invariant step == if n == 0 then 0 else ProbeStep(h, power)
        invariant Busy(Occupied(v[..]), power, h, n)
        invariant forall k :: 0 <= k < n ==> v[ProbeAt(h, power, k)].name != name
        decreases size - n
      {
        if v[i].name == name {
          PresentInMap(v[..], i, contents);
          return;
        }
        ProbesBounded(Occupied(v[..]), power, h, n);
        if step == 0 {
          step := ProbeStep(h, power);
        }
        ProbeNext(h, power, n);
        i := if i < step then i + size - step else i - step;
        n := n + 1;
      }
      NullProbeMeansAbsent(v[..], power, salt, name, n);
      AbsentFromMap(v[..], name, contents);
    }

    /** The rehash into a table of twice the size. */
    method Grow()
      requires Valid() && size != 0
      modifies this
      ensures Valid() && fresh(v) && size == 2 * old(size) && power == old(power) + 1
      ensures used == old(used) && contents == old(contents)
    {
      hide Placed, Represents, Occupied, Moved;
      var newPower := power + 1;
      var newSize := 2 * size;
      var newV := new Named?[newSize](_ => null);
      AllFree(newV[..], newPower, salt);
      MovedNone(newV[..], v[..]);
      var i := 0;
      while i < size
        invariant 0 <= i <= size && newV.Length == newSize
        invariant Placed(newV[..], newPower, salt)
        invariant Moved(newV[..], v[..], i)
        modifies newV
      {
        if v[i] != null {
          MovedDistinct(newV[..], v[..], i, power, salt);
          ghost var before := newV[..];
          ghost var j := Reinsert(newV, newPower, v[i]);
          MovedOne(before, v[..], i, j);
        } else {
          MovedSkip(newV[..], v[..], i);
        }
        i := i + 1;
      }
      MovedAll(newV[..], v[..], contents);
      v, power, size := newV, newPower, newSize;
    }

    /** The loops that only look for a null slot, in a table where the name is not. */
    method FreeSlot(v: array<Named?>, power: nat, h: nat) returns (j: nat, ghost n: nat)
      requires power >= INIT_POWER && v.Length == Pow2(power) && |Occupied(v[..])| < v.Length
      ensures j == ProbeAt(h, power, n) && j < v.Length && v[j] == null && Busy(Occupied(v[..]), power, h, n)
    {
      hide ProbeAt, ProbeStep, Masked, Pow2;
      ProbeStart(h, power);
      j, n := Masked(h, v.Length), 0;
      var step: nat := 0;
      while v[j] != null
        invariant j == ProbeAt(h, power, n) && n <= v.Length
        invariant step == if n == 0 then 0 else ProbeStep(h, power)
        invariant Busy(Occupied(v[..]), power, h, n)
        decreases v.Length - n
      {
        ProbesBounded(Occupied(v[..]), power, h, n);
        if step == 0 {
          step := ProbeStep(h, power);
        }
        ProbeNext(h, power, n);
        j := if j < step then j + v.Length - step else j - step;
        n := n + 1;
      }
    }

    /** One round of the rehash: put an entry in the first free slot of its sequence. */
    method Reinsert(newV: array<Named?>, newPower: nat, e: Named) returns (ghost slot: nat)
      requires newPower >= INIT_POWER && newV.Length == Pow2(newPower)
      requires Placed(newV[..], newPower, salt)
      requires |Occupied(newV[..])| < newV.Length
      requires forall j :: 0 <= j < newV.Length && newV[j] != null ==> newV[j].name != e.name
      modifies newV
      ensures Placed(newV[..], newPower, salt)
      ensures slot < newV.Length && old(newV[slot]) == null && newV[..] == old(newV[..])[slot := e]
    {
      hide ProbeAt, HashOn, Pow2, Placed;
      ghost var before := newV[..];
      var j;
      ghost var n;
      j, n := FreeSlot(newV, newPower, HashOn(salt, e.name));
      FillKeepsPlaced(newV[..], newPower, salt, e, n);
      newV[j] := e;
      slot := j;
      assert newV[..] == before[slot := e];
    }

    /** The first allocation, made when a name is first created. */
    method Allocate()
      requires Valid() && size == 0
      modifies this
      ensures Valid() && fresh(v) && size == Pow2(INIT_POWER) && contents == old(contents) && used == 0
      ensures forall j :: 0 <= j < size ==> v[j] == null
    {
      power, size := INIT_POWER, Pow2(INIT_POWER);
      v := new Named?[size](_ => null);
      AllFree(v[..], power, salt);
    }

    lemma AbsentName(name: Key)
      requires Valid() && size != 0 && name !in contents
      ensures forall j :: 0 <= j < v.Length && v[j] != null ==> v[j].name != name
    {
      hide Placed, Occupied;
    }

    /** Put a new entry in the free slot found for its name. */
    method Insert(name: Key, i: nat, ghost n: nat) returns (r: Named)
      requires Valid() && size != 0 && 2 * (used + 1) <= size && name !in contents
      requires i == ProbeAt(HashOn(salt, name), power, n) && v[i] == null
      requires Busy(Occupied(v[..]), power, HashOn(salt, name), n)
      modifies this, v
      ensures Valid() && v == old(v)
      ensures fresh(r) && r.name == name && contents == old(contents)[name := r]
    {
      hide ProbeAt, ProbeStep, HashOn, Reached, Busy, Pow2, Placed, Represents, Occupied;
      AbsentName(name);
      r := new Named(name);
      FillKeepsPlaced(v[..], power, salt, r, n);
      OccupiedUpdate(v[..], i, r);
      FillRepresents(v[..], i, r, contents);
      ghost var before := v[..];
      v[i] := r;
      assert v[..] == before[i := r];
      used := used + 1;
      contents := contents[name := r];
    }

    /** `lookup` with create = (createSize != 0). */
    method Lookup(name: Key, create: bool) returns (r: Named?)
      requires Valid()
      modifies this, v
      ensures Valid() && (v == old(v) || fresh(v))
      ensures name in old(contents) ==> r == old(contents)[name] && contents == old(contents)
      ensures name !in old(contents) && !create ==> r == null && contents == old(contents)
      ensures name !in old(contents) && create ==>
                r != null && fresh(r) && r.name == name && contents == old(contents)[name := r]
    {
      hide ProbeAt, ProbeStep, HashOn, Reached, Masked, Placed, Represents, Occupied;
      var h := HashOn(salt, name);
      var i: nat;
      ghost var n: nat := 0;
      if size == 0 {
        if !create {
          return null;
        }
        Allocate();
        ProbeStart(h, power);
        i := Masked(h, size);
      } else {
        i, n := Find(name, h);
        if v[i] != null {
          return v[i];
        }
        if !create {
          return null;
        }
        if used / Pow2(power - 1) != 0 {
          Grow();
          i, n := FreeSlot(v, power, h);
        } else {
          HalfFull(used, power);
        }
      }
      r := Insert(name, i, n);
    }
  }

  /** One lookup of a run: a name, and whether it is created when it is missing. */
  datatype Request = Request(name: Key, create: bool)

  /** One of the first n requests creates the name. */
  ghost predicate Created(rs: seq<Request>, n: nat, name: Key)
    requires n <= |rs|
  {
    exists j :: 0 <= j < n && rs[j] == Request(name, true)
  }

  /**
   * Any sequence of lookups: a name is found exactly when it was there at the start or has been created by then,
   * and every time by the same entry, whatever rehashing there was in between.
   */
  method LookupAll(t: HashTable, rs: seq<Request>) returns (found: seq<Named?>)
    requires t.Valid()
    modifies t, t.v
    ensures t.Valid() && |found| == |rs|
    ensures forall i :: 0 <= i < |rs| ==>
              (found[i] != null <==> rs[i].name in old(t.contents) || Created(rs, i + 1, rs[i].name))
    ensures forall i :: 0 <= i < |rs| && found[i] != null ==> rs[i].name in t.contents && found[i] == t.contents[rs[i].name]
    ensures forall name :: name in t.contents <==> name in old(t.contents) || Created(rs, |rs|, name)
  {
    hide HashTable.Valid, Created;
    NothingCreated(rs);
    found := [];
    for k := 0 to |rs|
      invariant t.Valid() && (t.v == old(t.v) || fresh(t.v)) && |found| == k
      invariant forall i :: 0 <= i < k ==>
                  (found[i] != null <==> rs[i].name in old(t.contents) || Created(rs, i + 1, rs[i].name))
      invariant forall i :: 0 <= i < k && found[i] != null ==>
                  rs[i].name in t.contents && found[i] == t.contents[rs[i].name]
      invariant forall name :: name in t.contents <==> name in old(t.contents) || Created(rs, k, name)
    {
      var r := t.Lookup(rs[k].name, rs[k].create);
      OneMoreCreated(rs, k);
      found := found + [r];
    }
  }

  lemma NothingCreated(rs: seq<Request>)
    ensures forall name :: !Created(rs, 0, name)
  {
  }

  lemma OneMoreCreated(rs: seq<Request>, k: nat)
    requires k < |rs|
    ensures forall name :: Created(rs, k + 1, name) <==> Created(rs, k, name) || rs[k] == Request(name, true)
  {
  }
}
