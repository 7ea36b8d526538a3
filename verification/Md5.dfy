/** Block-buffered MD5: the context, `MD5Update` and `MD5Final`, for any compression function. */
module Md5 {
  import opened Bytes

  type u32 = x: int | 0 <= x < 0x1_0000_0000

  /** The four chaining words. */
  datatype Words = Words(a: u32, b: u32, c: u32, d: u32)

  const INITIAL := Words(0x67452301, 0xefcdab89, 0x98badcfe, 0x10325476)

  /** A compression function: it is called with blocks of 64 bytes. */
  type Transform = (Words, Octets) -> Words

  // ----- RFC 1321, sections 3.1 to 3.5

  function LittleEndian(w: u32): (s: Octets)
    ensures |s| == 4
  {
    [w % 256, w / 0x100 % 256, w / 0x1_0000 % 256, w / 0x100_0000]
  }

  function Zeros(n: nat): (s: Octets)
    ensures |s| == n
  {
    seq(n, _ => 0)
  }

  /** Sections 3.1 and 3.2: a one bit, zero bits up to 56 modulo 64, then the bit length modulo 2^64. */
  function Padded(m: Octets): Octets {
    m + [0x80] + Zeros((119 - |m| % 64) % 64)
      + LittleEndian(8 * |m| % 0x1_0000_0000) + LittleEndian(8 * |m| / 0x1_0000_0000 % 0x1_0000_0000)
  }

  /** Section 3.4: the chaining value after every whole block. */
  ghost function Fold(f: Transform, h: Words, m: Octets): Words
    decreases |m|
  {
    if |m| < 64 then h else Fold(f, f(h, m[..64]), m[64..])
  }

  /** Section 3.5: the words, low-order bytes first. */
  function Output(h: Words): (s: Octets)
    ensures |s| == 16
  {
    LittleEndian(h.a) + LittleEndian(h.b) + LittleEndian(h.c) + LittleEndian(h.d)
  }

  ghost function Digest(f: Transform, m: Octets): Octets {
    Output(Fold(f, INITIAL, Padded(m)))
  }

  /** The padding is the shortest that ends on a block boundary and leaves room for a one bit and the length. */
  lemma PaddedShape(m: Octets)
    ensures |Padded(m)| % 64 == 0
    ensures |m| + 9 <= |Padded(m)| < |m| + 9 + 64
    ensures m <= Padded(m)
  {
    PadLength(|m|);
    hide LittleEndian, Zeros;
  }

  lemma PadLength(n: nat)
    ensures (n + 1 + (119 - n % 64) % 64 + 8) % 64 == 0
  {
  }

  lemma {:induction false} FoldAppend(f: Transform, h: Words, a: Octets, b: Octets)
    requires |a| % 64 == 0
    ensures Fold(f, h, a + b) == Fold(f, Fold(f, h, a), b)
    decreases |a|
  {
    if |a| == 0 {
      assert a + b == b;
    } else {
      assert (a + b)[..64] == a[..64];
      assert (a + b)[64..] == a[64..] + b;
      FoldAppend(f, f(h, a[..64]), a[64..], b);
    }
  }

  /** A whole number of blocks. */
  ghost predicate Blocks(n: nat) {
    n % 64 == 0
  }

  /** The length of the whole blocks of n bytes. */
  function Whole(n: nat): (w: nat)
    ensures w <= n && Blocks(w) && n - w < 64
  {
    n - n % 64
  }

  lemma NextBlock(n: nat)
    requires Blocks(n)
    ensures Blocks(n + 64)
  {
  }

  lemma WholeUnique(n: nat, w: nat)
    requires Blocks(w) && w <= n < w + 64
    ensures w == Whole(n)
  {
  }

  lemma ShortFold(f: Transform, h: Words, m: Octets)
    requires |m| < 64
    ensures Fold(f, h, m) == h
  {
  }

  lemma WholeOfNone(n: nat)
    requires n == 0
    ensures Whole(n) == 0
  {
  }

  lemma CountsNone(n: nat)
    requires n == 0
    ensures Counts(0, 0, n)
  {
  }

  lemma FoldBlock(f: Transform, h: Words, a: Octets, block: Octets)
    requires Blocks(|a|) && |block| == 64
    ensures Fold(f, h, a + block) == f(Fold(f, h, a), block)
  {
    FoldAppend(f, h, a, block);
    assert block[..64] == block && block[64..] == [];
  }

  /** The two 32-bit counters hold the bit length modulo 2^64. */
  ghost predicate Counts(low: u32, high: u32, n: nat) {
    low == 8 * n % 0x1_0000_0000 && high == 8 * n / 0x1_0000_0000 % 0x1_0000_0000
  }

  /** An unsigned 32-bit sum is smaller than its first operand exactly when it carries. */
  lemma Carry(x: u32, y: u32)
    ensures x + y == (x + y) % 0x1_0000_0000 + (if (x + y) % 0x1_0000_0000 < x then 0x1_0000_0000 else 0)
  {
  }

  lemma Quotient(t: nat, q: nat, r: nat)
    requires t == 0x1_0000_0000 * q + r && r < 0x1_0000_0000
    ensures t / 0x1_0000_0000 == q && t % 0x1_0000_0000 == r
  {
  }

  lemma AddModulo(q: nat, k: nat)
    ensures (q % 0x1_0000_0000 + k) % 0x1_0000_0000 == (q + k) % 0x1_0000_0000
  {
  }

  lemma CarryIntoHigh(low: u32, high: u32, n: nat, len: u32)
    requires Counts(low, high, n)
    ensures var low' := (low + len * 8 % 0x1_0000_0000) % 0x1_0000_0000;
            var high' := (high + (if low' < low then 1 else 0) + len / 0x2000_0000) % 0x1_0000_0000;
            Counts(low', high', n + len)
  {
    var q, c, rest := 8 * n / 0x1_0000_0000, len / 0x2000_0000, len * 8 % 0x1_0000_0000;
    assert 8 * len == 0x1_0000_0000 * c + rest;
    Carry(low, rest);
    var low' := (low + rest) % 0x1_0000_0000;
    var carry := if low' < low then 1 else 0;
    Quotient(8 * (n + len), q + c + carry, low');
    AddModulo(q, carry + c);
  }

  lemma ByteCount(n: nat)
    ensures 8 * n % 0x1_0000_0000 / 8 % 64 == n % 64
  {
    var q := 8 * n / 0x1_0000_0000;
    var k := n - 0x2000_0000 * q;
    assert 8 * n % 0x1_0000_0000 == 8 * k;
    assert n == k + 64 * (0x80_0000 * q);
  }

  lemma BufferedBytes(low: u32, high: u32, n: nat)
    requires Counts(low, high, n)
    ensures low / 8 % 64 == n - Whole(n)
  {
    ByteCount(n);
  }

  class MD5Context {
    const transform: Transform
    var buf: Words
    var bits0: u32
    var bits1: u32
    const input: array<byte>
    ghost var message: Octets

    ghost predicate Valid()
      reads this, input
    {
      var w := Whole(|message|);
      && input.Length == 64
      && buf == Fold(transform, INITIAL, message[..w])
      && input[..|message| - w] == message[w..]
      && Counts(bits0, bits1, |message|)
    }

    /** MD5Init */
    constructor (f: Transform)
      ensures Valid() && message == [] && transform == f && fresh(input)
    {
      hide Fold, Whole, Counts, Blocks;
      transform := f;
      buf := INITIAL;
      bits0, bits1 := 0, 0;
      input := new byte[64](_ => 0);
      message := [];
      new;
      ShortFold(f, INITIAL, message[..0]);
      WholeOfNone(|message|);
      CountsNone(|message|);
    }

    /** memcpy into the buffer. */
    method Copy(at: nat, s: Octets)
      requires at + |s| <= input.Length
      modifies input
      ensures input[..] == old(input[..at]) + s + old(input[at + |s|..])
    {
      forall k | 0 <= k < |s| {
        input[at + k] := s[k];
      }
    }

    /** The bit counters after len more bytes. */
    method Count(len: u32)
      requires Counts(bits0, bits1, |message|)
      modifies this`bits0, this`bits1
      ensures Counts(bits0, bits1, |message| + len)
    {
      CarryIntoHigh(bits0, bits1, |message|, len);
      var t := bits0;
      bits0 := (t + len * 8 % 0x1_0000_0000) % 0x1_0000_0000;
      AddModulo(bits1 + (if bits0 < t then 1 else 0), len / 0x2000_0000);
      if bits0 < t {
        bits1 := (bits1 + 1) % 0x1_0000_0000;
      }
      bits1 := (bits1 + len / 0x2000_0000) % 0x1_0000_0000;
    }

    /** MD5Transform on the full buffer. */
    method Compress(ghost all: Octets, ghost done: nat)
      requires Blocks(done) && done + 64 <= |all|
      requires buf == Fold(transform, INITIAL, all[..done])
      requires input[..] == all[done..done + 64]
      modifies this`buf
      ensures buf == Fold(transform, INITIAL, all[..done + 64])
    {
      FoldBlock(transform, INITIAL, all[..done], input[..]);
      assert all[..done + 64] == all[..done] + input[..];
      buf := transform(buf, input[..]);
    }

    /** Complete the block that is already begun; too few bytes leave it incomplete. */
    method Fill(t: nat, data: Octets, ghost all: Octets, ghost done: nat)
      requires 0 < t < 64 && input.Length == 64 && Blocks(done)
      requires done + t + |data| == |all| && data == all[done + t..]
      requires input[..t] == all[done..done + t] && buf == Fold(transform, INITIAL, all[..done])
      modifies this`buf, input
      ensures t + |data| < 64 ==>
                input[..t + |data|] == all[done..] && buf == Fold(transform, INITIAL, all[..done])
      ensures t + |data| >= 64 ==> buf == Fold(transform, INITIAL, all[..done + 64])
    {
      hide Fold;
      var room := 64 - t;
      if |data| < room {
        Copy(t, data);
      } else {
        Copy(t, data[..room]);
        Compress(all, done);
      }
    }

    /** Compress the whole blocks of the rest and keep what remains. */
    method Drain(data: Octets, ghost all: Octets, ghost start: nat)
      requires input.Length == 64 && Blocks(start) && start + |data| == |all| && data == all[start..]
      requires buf == Fold(transform, INITIAL, all[..start])
      modifies this`buf, input
      ensures var w := Whole(|all|);
              buf == Fold(transform, INITIAL, all[..w]) && input[..|all| - w] == all[w..]
    {
      hide Fold, Blocks, Whole;
      var rest := data;
      ghost var done := start;
      while |rest| >= 64
        invariant 0 <= done && Blocks(done) && done + |rest| == |all| && rest == all[done..]
        invariant buf == Fold(transform, INITIAL, all[..done])
      {
        Copy(0, rest[..64]);
        Compress(all, done);
        rest := rest[64..];
        NextBlock(done);
        done := done + 64;
      }
      WholeUnique(|all|, done);
      Copy(0, rest);
    }

    /** Whole blocks are compressed as they fill up, the rest waits in the buffer. */
    method Update(data: Octets)
      requires Valid() && |data| < 0x1_0000_0000
      modifies this, input
      ensures Valid() && message == old(message) + data
    {
      hide Counts, Fold, Whole, Blocks;
      BufferedBytes(bits0, bits1, |message|);
      var t := bits0 / 8 % 64;
      Count(|data|);
      ghost var all := message + data;
      ghost var done := Whole(|message|);
      assert message[..done] == all[..done];
      assert message[done..] == all[done..done + t];
      assert data == all[done + t..];
      message := all;
      if t != 0 {
        Fill(t, data, all, done);
        if |data| < 64 - t {
          WholeUnique(|all|, done);
          return;
        }
        NextBlock(done);
        Drain(data[64 - t..], all, done + 64);
      } else {
        Drain(data, all, done);
      }
    }

    /** The one bit and the zero bytes; a block that cannot also take the length is compressed. */
    method Pad() returns (ghost start: nat)
      requires Valid()
      modifies this`buf, input
      ensures Blocks(start) && start + 64 == |Padded(message)|
      ensures buf == Fold(transform, INITIAL, Padded(message)[..start])
      ensures input.Length == 64 && input[..56] == Padded(message)[start..start + 56]
    {
      hide Counts, Fold, LittleEndian, Padded, Whole, Blocks;
      BufferedBytes(bits0, bits1, |message|);
      PaddedTail(bits0, bits1, message);
      ghost var all := Padded(message);
      start := Whole(|message|);
      var count := bits0 / 8 % 64;
      Copy(count, [0x80]);
      ghost var head := message[start..] + [0x80];
      var p := count + 1;
      assert input[..p] == head;
      count := 63 - count;
      if count < 8 {
        Copy(p, Zeros(count));
        assert input[..] == head + Zeros(count);
        Compress(all, start);
        NextBlock(start);
        start := start + 64;
        Copy(0, Zeros(56));
        assert input[..56] == Zeros(56);
        assert all[start..start + 56] == all[start..][..56] == Zeros(56);
      } else {
        Copy(p, Zeros(count - 8));
        assert input[..56] == head + Zeros(count - 8) == all[start..start + 56];
      }
    }

    /** Pad, append the bit length, compress and wipe the context. */
    method Final() returns (digest: Octets)
      requires Valid()
      modifies this, input
      ensures digest == Digest(transform, old(message))
      ensures buf == Words(0, 0, 0, 0) && bits0 == bits1 == 0 && forall k :: 0 <= k < 64 ==> input[k] == 0
    {
      hide Counts, Fold, LittleEndian, Padded, Whole, Blocks, Output;
      PaddedEnd(bits0, bits1, message);
      ghost var all := Padded(message);
      ghost var start := Pad();
      Copy(56, LittleEndian(bits0));
      Copy(60, LittleEndian(bits1));
      assert input[..] == all[start..start + 56] + (LittleEndian(bits0) + LittleEndian(bits1));
      Compress(all, start);
      assert all[..start + 64] == all;
      digest := Output(buf);
      buf := Words(0, 0, 0, 0);
      bits0, bits1 := 0, 0;
      message := [];
      Copy(0, Zeros(64));
    }
  }

  lemma PaddedEnd(low: u32, high: u32, m: Octets)
    requires Counts(low, high, |m|)
    ensures var all := Padded(m);
            |all| >= 8 && all[|all| - 8..] == LittleEndian(low) + LittleEndian(high)
  {
  }

  /** The last one or two blocks of the padded message. */
  lemma PaddedTail(low: u32, high: u32, m: Octets)
    requires Counts(low, high, |m|)
    ensures var w, all := Whole(|m|), Padded(m);
            var r := |m| - w;
            var length := LittleEndian(low) + LittleEndian(high);
            && m[..w] == all[..w]
            && (r < 56 ==> |all| == w + 64 && all[w..] == m[w..] + [0x80] + Zeros(55 - r) + length)
            && (r >= 56 ==> |all| == w + 128)
            && (r >= 56 ==> all[w..w + 64] == m[w..] + [0x80] + Zeros(63 - r))
            && (r >= 56 ==> all[w + 64..] == Zeros(56) + length)
  {
    hide LittleEndian;
    var r := |m| % 64;
    if r >= 56 {
      assert Zeros(119 - r) == Zeros(63 - r) + Zeros(56);
    }
  }

  ghost function Flatten(chunks: seq<Octets>): Octets {
    if chunks == [] then [] else Flatten(chunks[..|chunks| - 1]) + chunks[|chunks| - 1]
  }

  /** However a message is cut into updates, the digest is that of the whole message. */
  method HashChunks(f: Transform, chunks: seq<Octets>) returns (digest: Octets)
    requires forall k :: 0 <= k < |chunks| ==> |chunks[k]| < 0x1_0000_0000
    ensures digest == Digest(f, Flatten(chunks))
  {
    hide Counts, Fold, Whole, Padded, Output, Blocks;
    var ctx := new MD5Context(f);
    for k := 0 to |chunks|
      invariant ctx.Valid() && ctx.message == Flatten(chunks[..k]) && ctx.transform == f
      invariant fresh(ctx) && fresh(ctx.input)
    {
      assert chunks[..k + 1][..k] == chunks[..k];
      ctx.Update(chunks[k]);
    }
    assert chunks[..|chunks|] == chunks;
    digest := ctx.Final();
  }

  /** Section 3.3 of RFC 1321: the four words in hexadecimal, low-order bytes first. */
  lemma InitialBytes()
    ensures Output(INITIAL) == [0x01, 0x23, 0x45, 0x67, 0x89, 0xAB, 0xCD, 0xEF,
                                0xFE, 0xDC, 0xBA, 0x98, 0x76, 0x54, 0x32, 0x10]
  {
  }

  /** The number that bytes spell, low-order byte first. */
  function LittleValue(s: Octets): nat {
    if s == [] then 0 else s[0] + 0x100 * LittleValue(s[1..])
  }

  lemma WordValue(w: u32)
    ensures LittleValue(LittleEndian(w)) == w
  {
    var s := LittleEndian(w);
    FourMore(s, []);
    assert s + [] == s;
    Nested(w);
  }

  lemma Nested(w: u32)
    ensures w == w % 0x100 + 0x100 * (w / 0x100 % 0x100 + 0x100 * (w / 0x1_0000 % 0x100 + 0x100 * (w / 0x100_0000)))
  {
    assert w / 0x100 / 0x100 == w / 0x1_0000 && w / 0x1_0000 / 0x100 == w / 0x100_0000;
  }

  lemma LittleAppend(a: u32, b: u32)
    ensures LittleValue(LittleEndian(a) + LittleEndian(b)) == a + 0x1_0000_0000 * b
  {
    hide LittleEndian;
    var s, t := LittleEndian(a), LittleEndian(b);
    WordValue(a);
    WordValue(b);
    FourMore(s, t);
    FourMore(s, []);
    assert s + [] == s;
  }

  lemma FourMore(s: Octets, t: Octets)
    requires |s| == 4
    ensures LittleValue(s + t) ==
            s[0] + 0x100 * (s[1] + 0x100 * (s[2] + 0x100 * (s[3] + 0x100 * LittleValue(t))))
  {
    var u := s + t;
    assert u[1..][1..] == u[2..] && u[2..][1..] == u[3..] && u[3..][1..] == t;
    assert LittleValue(u[3..]) == s[3] + 0x100 * LittleValue(t);
    assert LittleValue(u[2..]) == s[2] + 0x100 * LittleValue(u[3..]);
    assert LittleValue(u[1..]) == s[1] + 0x100 * LittleValue(u[2..]);
  }

  /**
   * Sections 3.1 and 3.2 of RFC 1321: after the message comes a byte with the first bit set, then zeros, and the last
   * eight bytes spell the length in bits modulo 2^64, low-order byte first.
   */
  lemma PaddedBytes(m: Octets)
    ensures |Padded(m)| >= |m| + 9 && Padded(m)[|m|] == 0x80
    ensures forall k :: |m| < k < |Padded(m)| - 8 ==> Padded(m)[k] == 0
    ensures LittleValue(Padded(m)[|Padded(m)| - 8..]) == 8 * |m| % 0x1_0000_0000_0000_0000
  {
    hide LittleEndian, LittleValue;
    var lo, hi := 8 * |m| % 0x1_0000_0000, 8 * |m| / 0x1_0000_0000 % 0x1_0000_0000;
    var p := Padded(m);
    assert p[|p| - 8..] == LittleEndian(lo) + LittleEndian(hi);
    LittleAppend(lo, hi);
    TwoWords(8 * |m|);
  }

  lemma TwoWords(n: nat)
    ensures n % 0x1_0000_0000 + 0x1_0000_0000 * (n / 0x1_0000_0000 % 0x1_0000_0000) == n % 0x1_0000_0000_0000_0000
  {
  }
}
