/** String pools: strings built in place in blocks that grow, `poolGrow` and the macros around it. */
module StringPool {
  import opened Bytes

  const INIT_BLOCK_SIZE := 1024

  /** A finished string: the block it lies in, where it starts, and its bytes. */
  datatype Str = Str(block: array<byte>, at: nat, text: Octets)

  /** STRING_POOL; the current string runs from start to ptr in the first block. */
  class Pool {
    var blocks: seq<array<byte>>
    var freeBlocks: seq<array<byte>>
    var start: nat
    var ptr: nat
    /** The strings finished since the pool was last cleared. */
    ghost var finished: seq<Str>

    /** The bytes of the string in progress. */
    ghost function Current(): Octets
      requires blocks != [] ==> start <= ptr <= blocks[0].Length
      reads this`blocks, this`start, this`ptr, if blocks == [] then {} else {blocks[0]}
    {
      if blocks == [] then [] else blocks[0][start..ptr]
    }

    ghost predicate Blocks()
      reads this`blocks, this`freeBlocks, this`start, this`ptr
    {
      && (forall i, j :: 0 <= i < j < |blocks| ==> blocks[i] != blocks[j])
      && (forall i, j :: 0 <= i < j < |freeBlocks| ==> freeBlocks[i] != freeBlocks[j])
      && (forall i, j :: 0 <= i < |blocks| && 0 <= j < |freeBlocks| ==> blocks[i] != freeBlocks[j])
      && (forall i :: 0 <= i < |blocks| ==> blocks[i].Length > 0)
      && (forall i :: 0 <= i < |freeBlocks| ==> freeBlocks[i].Length > 0)
      && (if blocks == [] then start == ptr == 0 else start <= ptr <= blocks[0].Length)
    }

    /** A finished string that is not empty lies in a block of the pool, before the string in progress. */
    ghost predicate Kept(s: Str)
      reads this`blocks, this`start, s.block
    {
      s.text != [] ==>
        && s.block in blocks && s.at + |s.text| <= s.block.Length && s.block[s.at..s.at + |s.text|] == s.text
        && (s.block == blocks[0] ==> s.at + |s.text| <= start)
    }

    ghost predicate Valid()
      reads this, blocks
    {
      Blocks() && forall k :: 0 <= k < |finished| ==> finished[k].text != [] ==>
                    finished[k].block in blocks && Kept(finished[k])
    }

    /** poolInit */
    constructor ()
      ensures Valid() && Current() == [] && finished == [] && blocks == [] && freeBlocks == []
    {
      blocks, freeBlocks, start, ptr := [], [], 0, 0;
      finished := [];
    }

    /** The bytes that are free behind the string in progress. */
    function Room(): int
      reads this`blocks, this`ptr
    {
      if blocks == [] then 0 else blocks[0].Length - ptr
    }

    /** All memory that the pool holds. */
    ghost function Owned(): set<array<byte>>
      reads this`blocks, this`freeBlocks
    {
      (set b | b in blocks) + (set b | b in freeBlocks)
    }

    /** Every block is one of before, or new, and there are no fewer; by Blocks all are distinct. */
    twostate predicate Grows()
      reads this`blocks, this`freeBlocks
    {
      && |blocks| + |freeBlocks| >= |old(blocks)| + |old(freeBlocks)|
      && (forall k :: 0 <= k < |blocks| ==> blocks[k] in old(blocks) || blocks[k] in old(freeBlocks) || fresh(blocks[k]))
      && (forall k :: 0 <= k < |freeBlocks| ==>
            freeBlocks[k] in old(blocks) || freeBlocks[k] in old(freeBlocks) || fresh(freeBlocks[k]))
    }

    /** Copy bytes from one block to the start of another. */
    method CopyBytes(from: array<byte>, at: nat, n: nat, to: array<byte>)
      requires at + n <= from.Length && n <= to.Length && from != to
      modifies to
      ensures to[..n] == from[at..at + n]
    {
      for k := 0 to n
        invariant to[..k] == from[at..at + k]
      {
        to[k] := from[at + k];
      }
    }

    /** The first free block becomes the first block of the pool. */
    method UseFree()
      requires Valid() && blocks == [] && freeBlocks != []
      modifies this`blocks, this`freeBlocks, this`start, this`ptr
      ensures Valid() && Current() == [] && blocks == [old(freeBlocks)[0]] && Owned() == old(Owned())
      ensures ptr < blocks[0].Length && Room() > 0 && freeBlocks == old(freeBlocks)[1..]
    {
      var b := freeBlocks[0];
      freeBlocks := freeBlocks[1..];
      blocks, start, ptr := [b], 0, 0;
      assert Current() == [];
      assert old(freeBlocks) == [b] + freeBlocks;
    }

    /** The string in progress goes to the start of another block; the old block stays in the pool. */
    method MoveTo(b: array<byte>)
      requires Valid() && blocks != [] && b !in blocks && b !in freeBlocks && ptr - start <= b.Length && b.Length > 0
      modifies this`blocks, this`start, this`ptr, b
      ensures Valid() && Current() == old(Current()) && blocks == [b] + old(blocks) && ptr == old(ptr) - old(start)
      ensures start == 0
    {
      CopyBytes(blocks[0], start, ptr - start, b);
      ghost var was := blocks;
      ptr := ptr - start;
      start := 0;
      blocks := [b] + blocks;
      forall k | 0 <= k < |finished| && finished[k].text != []
        ensures finished[k].block in blocks && Kept(finished[k])
      {
        assert finished[k].block in was;
      }
    }

    method MoveToFree()
      requires Valid() && blocks != [] && freeBlocks != [] && blocks[0].Length - start < freeBlocks[0].Length
      modifies this`blocks, this`freeBlocks, this`start, this`ptr, freeBlocks
      ensures Valid() && Current() == old(Current()) && blocks != [] && ptr < blocks[0].Length
      ensures Owned() == old(Owned()) && Room() > old(Room())
      ensures blocks == [old(freeBlocks)[0]] + old(blocks) && freeBlocks == old(freeBlocks)[1..]
    {
      var b := freeBlocks[0];
      assert freeBlocks == [b] + freeBlocks[1..];
      freeBlocks := freeBlocks[1..];
      MoveTo(b);
    }

    /** realloc: only when the string in progress starts the block, so that no finished string is moved. */
    method Enlarge()
      requires Valid() && blocks != [] && start == 0
      modifies this`blocks
      ensures Valid() && Current() == old(Current()) && blocks != [] && ptr < blocks[0].Length && fresh(blocks[0])
      ensures blocks == [blocks[0]] + old(blocks)[1..]
      ensures Room() > old(Room()) && Owned() == old(Owned()) - {old(blocks)[0]} + {blocks[0]}
    {
      var was := blocks[0];
      var temp := new byte[was.Length * 2];
      CopyBytes(was, 0, was.Length, temp);
      assert temp[..ptr] == was[..ptr];
      ghost var before := blocks;
      blocks := [temp] + blocks[1..];
      forall k | 0 <= k < |finished| && finished[k].text != []
        ensures finished[k].block in blocks && Kept(finished[k])
      {
        NotFirst(finished[k], before);
      }
    }

    lemma NotFirst(s: Str, before: seq<array<byte>>)
      requires before != [] && s.text != [] && s.block in before && (s.block == before[0] ==> s.at + |s.text| <= 0)
      ensures s.block in before[1..]
    {
    }

    method NewBlock()
      requires Valid() && (blocks == [] || start != 0)
      modifies this`blocks, this`start, this`ptr
      ensures Valid() && Current() == old(Current()) && blocks != [] && ptr < blocks[0].Length && fresh(blocks[0])
      ensures Owned() == old(Owned()) + {blocks[0]} && Room() > old(Room())
      ensures blocks == [blocks[0]] + old(blocks)
    {
      var rest := if blocks == [] then 0 else blocks[0].Length - start;
      var blockSize := if rest < INIT_BLOCK_SIZE then INIT_BLOCK_SIZE else rest * 2;
      var tem := new byte[blockSize];
      if blocks == [] {
        blocks, start, ptr := [tem], 0, 0;
        assert Current() == [];
      } else {
        MoveTo(tem);
      }
    }

    /** poolGrow */
    method Grow()
      requires Valid()
      modifies this`blocks, this`freeBlocks, this`start, this`ptr, freeBlocks
      ensures Valid() && Current() == old(Current()) && blocks != [] && ptr < blocks[0].Length
      ensures Room() > old(Room()) && Grows()
      ensures || Owned() == old(Owned())
              || (fresh(blocks[0]) && Owned() == old(Owned()) + {blocks[0]})
              || (fresh(blocks[0]) && old(blocks) != [] && old(start) == 0
                  && Owned() == old(Owned()) - {old(blocks)[0]} + {blocks[0]})
    {
      if freeBlocks != [] {
        if blocks == [] {
          UseFree();
          return;
        }
        if blocks[0].Length - start < freeBlocks[0].Length {
          MoveToFree();
          return;
        }
      }
      if blocks != [] && start == 0 {
        Enlarge();
      } else {
        NewBlock();
      }
    }

    /** Bytes are written behind the string in progress. */
    method Write(s: Octets)
      requires Valid() && |s| <= Room()
      modifies this`ptr, blocks
      ensures Valid() && Current() == old(Current()) + s && (blocks != [] ==> ptr == old(ptr) + |s|)
    {
      hide Kept;
      if blocks == [] {
        return;
      }
      ghost var at := ptr;
      for k := 0 to |s|
        invariant Valid() && ptr == at + k && at + |s| <= blocks[0].Length
        invariant Current() == old(Current()) + s[..k]
      {
        PutByte(s[k]);
        assert s[..k + 1] == s[..k] + [s[k]];
      }
      assert s[..|s|] == s;
    }

    method PutByte(c: byte)
      requires Valid() && Room() > 0
      modifies this`ptr, blocks
      ensures Valid() && ptr == old(ptr) + 1 && Current() == old(Current()) + [c]
    {
      ghost var first := blocks[0];
      ghost var before := first[..];
      blocks[0][ptr] := c;
      ptr := ptr + 1;
      forall k | 0 <= k < |finished| && finished[k].text != []
        ensures Kept(finished[k])
      {
        var f := finished[k];
        if f.block == first {
          assert first[f.at..f.at + |f.text|] == before[f.at..f.at + |f.text|];
        }
      }
    }

    /** poolAppendChar */
    method AppendChar(c: byte)
      requires Valid()
      modifies this, blocks, freeBlocks
      ensures Valid() && Current() == old(Current()) + [c] && finished == old(finished)
      ensures blocks != []
      ensures Grows()
    {
      if Room() == 0 {
        Grow();
      }
      PutByte(c);
    }

    /** Where utf8_toUtf8 stops when not all fits: behind a byte that does not continue a character. */
    function Cut(s: Octets, n: nat): (m: nat)
      requires n <= |s|
      ensures m <= n
    {
      if n == 0 || !(0x80 <= s[n - 1] < 0xC0) then n else Cut(s, n - 1)
    }

    /** XmlConvert into what is left of the block. */
    method AppendSome(s: Octets, i: nat) returns (j: nat)
      requires Valid() && blocks != [] && i <= |s|
      modifies this`ptr, blocks
      ensures Valid() && i <= j <= |s| && Current() == old(Current()) + s[i..j]
      ensures (|s| - i <= old(Room()) ==> j == |s|) && Room() == old(Room()) - (j - i)
    {
      var rest := s[i..];
      var n := if |rest| <= Room() then |rest| else Cut(rest, Room());
      assert rest[..n] == s[i..i + n];
      Write(rest[..n]);
      j := i + n;
    }

    /** poolAppend: as much as fits at a time, then a larger block. */
    method Append(s: Octets)
      requires Valid()
      modifies this, blocks, freeBlocks
      ensures Valid() && Current() == old(Current()) + s && finished == old(finished) && blocks != []
      ensures Grows()
    {
      hide Kept, Owned;
      if blocks == [] {
        Grow();
      }
      var i := 0;
      while true
        invariant Valid() && blocks != [] && i <= |s| && finished == old(finished)
        invariant Current() == old(Current()) + s[..i]
        invariant Grows()
        decreases |s| - i, |s| - Room()
      {
        ghost var at := i;
        i := AppendTurn(s, i);
        assert s[..i] == s[..at] + s[at..i];
        if i == |s| {
          assert s[..i] == s;
          return;
        }
      }
    }

    /** What fits, and a larger block for the rest. */
    method AppendTurn(s: Octets, i: nat) returns (j: nat)
      requires Valid() && blocks != [] && i <= |s|
      modifies this`ptr, this`blocks, this`freeBlocks, this`start, blocks, freeBlocks
      ensures Valid() && blocks != [] && i <= j <= |s| && Current() == old(Current()) + s[i..j]
      ensures Grows() && (j < |s| ==> old(Room()) < |s| && (j > i || Room() > old(Room())))
    {
      hide Kept, Owned;
      j := AppendSome(s, i);
      if j < |s| {
        Grow();
      }
    }

    /** poolFinish */
    method Finish()
      requires Valid()
      modifies this`start, this`finished
      ensures Valid() && Current() == [] && blocks == old(blocks)
      ensures finished == if blocks == [] then old(finished)
                          else old(finished) + [Str(blocks[0], old(start), old(Current()))]
    {
      if blocks != [] {
        finished := finished + [Str(blocks[0], start, Current())];
      }
      start := ptr;
    }

    /** poolDiscard */
    method Discard()
      requires Valid()
      modifies this`ptr
      ensures Valid() && Current() == [] && finished == old(finished)
    {
      ptr := start;
    }

    /** poolChop */
    method Chop()
      requires Valid() && Current() != []
      modifies this`ptr
      ensures Valid() && Current() == old(Current())[..|old(Current())| - 1] && finished == old(finished)
    {
      ptr := ptr - 1;
    }

    /** poolClear: all blocks are free again, none is lost. */
    method Clear()
      requires Valid()
      modifies this
      ensures Valid() && Current() == [] && finished == [] && blocks == [] && Owned() == old(Owned()) && Grows()
    {
      if freeBlocks == [] {
        freeBlocks := blocks;
      } else {
        var p := blocks;
        while p != []
          invariant (set b | b in p) + (set b | b in freeBlocks) == old(Owned())
          invariant |p| + |freeBlocks| == |old(blocks)| + |old(freeBlocks)|
          invariant forall k :: 0 <= k < |p| ==> p[k] in old(blocks)
          invariant forall k :: 0 <= k < |freeBlocks| ==> freeBlocks[k] in old(blocks) || freeBlocks[k] in old(freeBlocks)
          invariant forall i, j :: 0 <= i < j < |p| ==> p[i] != p[j]
          invariant forall i, j :: 0 <= i < j < |freeBlocks| ==> freeBlocks[i] != freeBlocks[j]
          invariant forall i, j :: 0 <= i < |p| && 0 <= j < |freeBlocks| ==> p[i] != freeBlocks[j]
          invariant forall i :: 0 <= i < |p| ==> p[i].Length > 0
          invariant forall i :: 0 <= i < |freeBlocks| ==> freeBlocks[i].Length > 0
          decreases |p|
        {
          assert p == [p[0]] + p[1..];
          freeBlocks := [p[0]] + freeBlocks;
          p := p[1..];
        }
      }
      blocks, start, ptr, finished := [], 0, 0, [];
    }

    /** poolStoreString */
    method StoreString(s: Octets)
      requires Valid()
      modifies this, blocks, freeBlocks
      ensures Valid() && Current() == old(Current()) + s + [0] && finished == old(finished) && Grows()
    {
      hide Kept, Owned;
      Append(s);
      AppendChar(0);
    }

    /** The strings of the pool. */
    ghost function Strings(): Contents
      requires Valid()
      reads this, blocks
    {
      Texts(finished, Current())
    }

    method Perform(op: Op)
      requires Valid()
      modifies this, blocks, freeBlocks
      ensures Valid() && Grows() && (op != Empty ==> old(finished) <= finished)
      ensures Strings() == Done(op, old(Strings()))
    {
      hide Kept, Owned, NonEmpty;
      match op
      case Byte(c) => AppendChar(c);
      case Bytes(s) => Append(s);
      case EndString =>
        ghost var before := finished;
        Finish();
        if finished != before {
          FinishedOne(before, finished[|finished| - 1]);
        }
      case Drop => Discard();
      case DropLast =>
        if start != ptr {
          Chop();
        }
      case Empty =>
        Clear();
        NothingFinished();
    }
  }

  // ----- any sequence of operations

  datatype Op = Byte(c: byte) | Bytes(s: Octets) | EndString | Drop | DropLast | Empty

  /** The finished strings that are not empty, and the string in progress. */
  datatype Contents = Contents(done: seq<Octets>, current: Octets)

  ghost function NonEmpty(finished: seq<Str>): seq<Octets> {
    if finished == [] then [] else
      var last := finished[|finished| - 1];
      NonEmpty(finished[..|finished| - 1]) + if last.text != [] then [last.text] else []
  }

  ghost function Texts(finished: seq<Str>, current: Octets): Contents {
    Contents(NonEmpty(finished), current)
  }

  lemma NothingFinished()
    ensures NonEmpty([]) == []
  {
  }

  lemma FinishedOne(finished: seq<Str>, s: Str)
    ensures NonEmpty(finished + [s]) == NonEmpty(finished) + if s.text != [] then [s.text] else []
  {
  }

  /** What an operation does to the strings. */
  function Done(op: Op, c: Contents): Contents {
    match op
    case Byte(b) => c.(current := c.current + [b])
    case Bytes(s) => c.(current := c.current + s)
    case EndString => Contents(if c.current == [] then c.done else c.done + [c.current], [])
    case Drop => c.(current := [])
    case DropLast => if c.current == [] then c else c.(current := c.current[..|c.current| - 1])
    case Empty => Contents([], [])
  }

  function DoneAll(ops: seq<Op>, c: Contents): Contents
    decreases |ops|
  {
    if ops == [] then c else DoneAll(ops[1..], Done(ops[0], c))
  }

  /**
   * After any operations the pool holds the strings finished since it was last cleared, each where it was finished,
   * and the string in progress; no block is lost.
   */
  method Run(pool: Pool, ops: seq<Op>)
    requires pool.Valid()
    modifies pool, pool.blocks, pool.freeBlocks
    ensures pool.Valid() && (Empty !in ops ==> old(pool.finished) <= pool.finished)
    ensures pool.Strings() == DoneAll(ops, old(pool.Strings()))
    ensures pool.Grows()
  {
    hide Done, Pool.Valid, Pool.Strings;
    assert ops[0..] == ops;
    for k := 0 to |ops|
      invariant pool.Valid() && pool.Grows() && (Empty !in ops[..k] ==> old(pool.finished) <= pool.finished)
      invariant DoneAll(ops[k..], pool.Strings()) == DoneAll(ops, old(pool.Strings()))
    {
      assert ops[k..][1..] == ops[k + 1..] && ops[..k + 1] == ops[..k] + [ops[k]];
      pool.Perform(ops[k]);
    }
    assert ops[..|ops|] == ops;
  }
}
