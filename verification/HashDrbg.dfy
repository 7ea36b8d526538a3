/** The random generator: Hash_DRBG of NIST SP 800-90A over SHA-1, and `xmpp_rand_bytes`. */
module HashDrbg {
  import opened BigEndian
  import opened Bytes

  const SEEDLEN: nat := 55
  const RESEED_INTERVAL: nat := 0x7fffffff
  const GENERATE_MAX: nat := 200
  const ENTROPY_MAX: nat := 128
  const NONCE_MAX: nat := 8

  type Block = s: Octets | |s| == 20 witness seq(20, _ => 0)
  type Seed = s: Octets | |s| == 55 witness seq(55, _ => 0)

  /** SHA-1, or any function with outputs of the same size. */
  type Hash = Octets -> Block

  // ----- SP 800-90A, sections 10.1.1 and 10.4.1, as functions on byte strings

  /** Enough blocks of the hash for n bytes. */
  function Blocks(n: nat): (m: nat)
    ensures n <= 20 * m < n + 20
  {
    (n + 19) / 20
  }

  /** The i-th block of Hash_df hashes the counter i, the number of bits wanted and the input. */
  ghost function DfBlocks(h: Hash, input: Octets, n: nat, i: nat): (s: Octets)
    requires i < 256
    ensures |s| == 20 * i
  {
    if i == 0 then [] else DfBlocks(h, input, n, i - 1) + h([i] + Encode(8 * n, 4) + input)
  }

  ghost function HashDf(h: Hash, input: Octets, n: nat): (s: Octets)
    requires Blocks(n) < 256
    ensures |s| == n
  {
    DfBlocks(h, input, n, Blocks(n))[..n]
  }

  /** The i-th block of Hashgen hashes V + i - 1, modulo 2^seedlen. */
  ghost function GenBlocks(h: Hash, v: Seed, i: nat): (s: Octets)
    ensures |s| == 20 * i
  {
    if i == 0 then [] else GenBlocks(h, v, i - 1) + h(Sum(v, i - 1))
  }

  ghost function HashGen(h: Hash, v: Seed, n: nat): (s: Octets)
    ensures |s| == n
  {
    GenBlocks(h, v, Blocks(n))[..n]
  }

  /** The working state of the generator. */
  datatype State = State(v: Seed, c: Seed, counter: nat)

  ghost function Seeded(h: Hash, material: Octets): State {
    var seed := HashDf(h, material, 55);
    State(seed, HashDf(h, [0] + seed, 55), 1)
  }

  ghost function Instantiated(h: Hash, entropy: Octets, nonce: Octets): State {
    Seeded(h, entropy + nonce)
  }

  ghost function Reseeded(h: Hash, s: State, entropy: Octets): State {
    Seeded(h, [1] + s.v + entropy)
  }

  ghost predicate ReseedNeeded(s: State) {
    s.counter > RESEED_INTERVAL || s.counter == 0
  }

  /** V = V + Hash(0x03 || V) + C + reseed_counter, modulo 2^seedlen. */
  ghost function Generated(h: Hash, s: State): State {
    State(Sum(s.v, Value(h([3] + s.v)) + Value(s.c) + s.counter), s.c, s.counter + 1)
  }

  // ----- the implementation

  /** Adding in several steps is adding the sum. */
  lemma SumSum(a: Octets, b: nat, c: nat)
    ensures Sum(Sum(a, b), c) == Sum(a, b + c)
  {
    hide Value, Encode, Pow256;
    SumValue(a, b);
    var m := Pow256(|a|);
    ModuloTwice(Value(a) + b, c, m);
    assert Value(Sum(a, b)) + c == (Value(a) + b) % m + c;
  }

  lemma ModuloTwice(x: nat, c: nat, m: nat)
    requires m > 0
    ensures (x % m + c) % m == (x + c) % m
  {
    var q, r := x / m, (x % m + c) % m;
    var p := (x % m + c) / m;
    assert x + c == m * q + m * p + r == m * (q + p) + r;
    ModDefinition(x + c, m, q + p, r);
  }

  /** store_be32 */
  method StoreBe32(val: nat, be: array<byte>)
    requires val < 0x1_0000_0000 && be.Length == 4
    modifies be
    ensures be[..] == Encode(val, 4)
  {
    be[0] := val / 0x100_0000 % 256;
    be[1] := val / 0x1_0000 % 256;
    be[2] := val / 0x100 % 256;
    be[3] := val % 256;
    FourBytes(val);
  }

  lemma FourBytes(val: nat)
    requires val < 0x1_0000_0000
    ensures Encode(val, 4) ==
            [val / 0x100_0000 % 256, val / 0x1_0000 % 256, val / 0x100 % 256, val % 256]
  {
    var a, b, c := val / 256, val / 256 / 256, val / 256 / 256 / 256;
    assert b == val / 0x1_0000 && c == val / 0x100_0000;
    assert Encode(c, 1) == Encode(c / 256, 0) + [c % 256] == [c % 256];
    assert Encode(b, 2) == Encode(c, 1) + [b % 256];
    assert Encode(a, 3) == Encode(b, 2) + [a % 256];
  }

  /** memcpy into an array. */
  method Copy(to: array<byte>, at: nat, s: Octets)
    requires at + |s| <= to.Length
    modifies to
    ensures to[..] == old(to[..at]) + s + old(to[at + |s|..])
  {
    forall k | 0 <= k < |s| {
      to[at + k] := s[k];
    }
  }

  /** Hash_df; the asserts of the source bound the output and the input. */
  method ComputeDf(h: Hash, input: Octets, n: nat) returns (output: Octets)
    requires n <= 60 && |input| + 5 <= ENTROPY_MAX + NONCE_MAX + SEEDLEN + 6
    ensures output == HashDf(h, input, n)
  {
    hide DfBlocks;
    var temp := new byte[60];
    var be := new byte[4];
    var len := Blocks(n);
    DfBlocksNone(h, input, n);
    for i := 1 to len + 1
      invariant temp[..20 * (i - 1)] == DfBlocks(h, input, n, i - 1)
    {
      StoreBe32(8 * n, be);
      var conj := [i] + be[..] + input;
      ghost var before := temp[..20 * (i - 1)];
      Copy(temp, (i - 1) * 20, h(conj));
      DfBlocksStep(h, input, n, i);
      assert temp[..20 * i] == before + h(conj);
    }
    output := temp[..n];
    assert output == temp[..20 * len][..n];
  }

  lemma DfBlocksNone(h: Hash, input: Octets, n: nat)
    ensures DfBlocks(h, input, n, 0) == []
  {
  }

  lemma DfBlocksStep(h: Hash, input: Octets, n: nat, i: nat)
    requires 0 < i < 256
    ensures DfBlocks(h, input, n, i) == DfBlocks(h, input, n, i - 1) + h([i] + Encode(8 * n, 4) + input)
  {
  }

  lemma SumNothing(a: Octets)
    ensures Sum(a, 0) == a
  {
    hide Value, Encode, Pow256;
    ValueBound(a);
    EncodeValue(a);
    ModDefinition(Value(a), Pow256(|a|), 0, Value(a));
  }

  lemma OneByte(s: Octets)
    requires |s| == 1
    ensures Value(s) == s[0]
  {
  }

  lemma GenBlocksStep(h: Hash, v: Seed, i: nat)
    requires i > 0
    ensures GenBlocks(h, v, i) == GenBlocks(h, v, i - 1) + h(Sum(v, i - 1))
  {
  }

  lemma GenBlocksNone(h: Hash, v: Seed)
    ensures GenBlocks(h, v, 0) == []
  {
  }

  /** Hashgen */
  method ComputeGen(h: Hash, v: Seed, n: nat) returns (output: Octets)
    requires n <= GENERATE_MAX
    ensures output == HashGen(h, v, n)
  {
    hide GenBlocks, Sum, Value;
    var data := new byte[55];
    var w := new byte[200];
    var one := new byte[1](_ => 1);
    OneByte(one[..]);
    var m := Blocks(n);
    Copy(data, 0, v);
    assert data[..] == v;
    SumNothing(v);
    GenBlocksNone(h, v);
    for i := 1 to m + 1
      invariant data[..] == Sum(v, i - 1) && one[..] == [1]
      invariant w[..20 * (i - 1)] == GenBlocks(h, v, i - 1)
    {
      ghost var before := w[..20 * (i - 1)];
      var block := h(data[..]);
      Copy(w, (i - 1) * 20, block);
      GenBlocksStep(h, v, i);
      assert w[..20 * i] == before + block;
      SumSum(v, i - 1, 1);
      ArrAdd(data, one);
    }
    output := w[..n];
    assert output == w[..20 * m][..n];
  }

  class HashDrbgCtx {
    const h: Hash
    const V: array<byte>
    const C: array<byte>
    var reseedCounter: nat

    ghost predicate Valid()
      reads this
    {
      V.Length == 55 && C.Length == 55 && V != C && reseedCounter < 0x1_0000_0000
    }

    ghost function Working(): State
      requires Valid()
      reads this, V, C
    {
      State(V[..], C[..], reseedCounter)
    }

    /** A zeroed context. */
    constructor (h: Hash)
      ensures Valid() && fresh(V) && fresh(C) && this.h == h && reseedCounter == 0
    {
      this.h := h;
      V := new byte[55](_ => 0);
      C := new byte[55](_ => 0);
      reseedCounter := 0;
    }

    /** What instantiation and reseeding share. */
    method SetSeed(material: Octets)
      requires Valid() && |material| <= 1 + SEEDLEN + ENTROPY_MAX
      modifies this, V, C
      ensures Valid() && Working() == Seeded(h, material)
    {
      hide HashDf;
      var seed := ComputeDf(h, material, 55);
      Copy(V, 0, seed);
      var c := ComputeDf(h, [0] + seed, 55);
      Copy(C, 0, c);
      reseedCounter := 1;
      assert V[..] == seed && C[..] == c;
    }

    method Instantiate(entropy: Octets, nonce: Octets)
      requires Valid() && |entropy| <= ENTROPY_MAX && |nonce| <= NONCE_MAX
      modifies this, V, C
      ensures Valid() && Working() == Instantiated(h, entropy, nonce)
    {
      SetSeed(entropy + nonce);
    }

    method Reseed(entropy: Octets)
      requires Valid() && |entropy| <= ENTROPY_MAX
      modifies this, V, C
      ensures Valid() && Working() == Reseeded(h, old(Working()), entropy)
    {
      hide Seeded;
      SetSeed([1] + V[..] + entropy);
    }

    /** Hash_DRBG_Generate; ok is false for RESEED_NEEDED. */
    method Generate(n: nat) returns (ok: bool, output: Octets)
      requires Valid() && n <= GENERATE_MAX
      modifies this, V
      ensures Valid() && ok == !ReseedNeeded(old(Working()))
      ensures !ok ==> Working() == old(Working()) && output == []
      ensures ok ==> output == HashGen(h, old(Working()).v, n) && Working() == Generated(h, old(Working()))
    {
      hide HashGen, Sum, Value;
      if reseedCounter > RESEED_INTERVAL || reseedCounter == 0 {
        return false, [];
      }
      ghost var v := V[..];
      output := ComputeGen(h, V[..], n);
      var block := h([3] + V[..]);
      var hash := new byte[20];
      Copy(hash, 0, block);
      assert hash[..] == block;
      var counter := new byte[4];
      StoreBe32(reseedCounter, counter);
      CounterValue(reseedCounter);
      ArrAdd(V, C);
      ArrAdd(V, hash);
      ArrAdd(V, counter);
      SumSum(v, Value(C[..]), Value(block));
      SumSum(v, Value(C[..]) + Value(block), reseedCounter);
      reseedCounter := reseedCounter + 1;
      ok := true;
    }
  }

  lemma CounterValue(n: nat)
    requires n < 0x1_0000_0000
    ensures Value(Encode(n, 4)) == n
  {
    assert Pow256(4) == 0x1_0000_0000;
    ValueEncode(n, 4);
  }

  /** A request for random bytes, with the entropy that a reseed would find. */
  datatype Request = Request(n: nat, entropy: Octets)

  ghost predicate Served(r: Request) {
    r.n <= GENERATE_MAX && |r.entropy| <= ENTROPY_MAX
  }

  datatype Generator = Uninstantiated | Running(state: State)

  /** The state from which a request is served: reseeded when the standard demands it. */
  ghost function Ready(h: Hash, g: Generator, r: Request): State {
    match g
    case Uninstantiated => Instantiated(h, r.entropy, [])
    case Running(s) => if ReseedNeeded(s) then Reseeded(h, s, r.entropy) else s
  }

  /** A run of the generator of the standard. */
  ghost function RunState(h: Hash, g: Generator, rs: seq<Request>): Generator {
    if rs == [] then g else
      Running(Generated(h, Ready(h, RunState(h, g, rs[..|rs| - 1]), rs[|rs| - 1])))
  }

  ghost function RunOutput(h: Hash, g: Generator, rs: seq<Request>): Octets {
    if rs == [] then [] else
      var front, last := rs[..|rs| - 1], rs[|rs| - 1];
      RunOutput(h, g, front) + HashGen(h, Ready(h, RunState(h, g, front), last).v, last.n)
  }

  class XmppRand {
    var inited: bool
    const ctx: HashDrbgCtx

    ghost predicate Valid()
      reads this, ctx
    {
      ctx.Valid() && (!inited ==> ctx.reseedCounter == 0)
    }

    ghost function Gen(): Generator
      requires Valid()
      reads this, ctx, ctx.V, ctx.C
    {
      if inited then Running(ctx.Working()) else Uninstantiated
    }

    constructor (h: Hash)
      ensures Valid() && Gen() == Uninstantiated && ctx.h == h && fresh(ctx) && fresh(ctx.V) && fresh(ctx.C)
    {
      inited := false;
      ctx := new HashDrbgCtx(h);
    }

    /** xmpp_rand_reseed */
    method Reseed(entropy: Octets)
      requires Valid() && |entropy| <= ENTROPY_MAX
      modifies this, ctx, ctx.V, ctx.C
      ensures Valid() && inited
      ensures ctx.Working() == match old(Gen())
                case Uninstantiated => Instantiated(ctx.h, entropy, [])
                case Running(s) => Reseeded(ctx.h, s, entropy)
    {
      hide Seeded;
      if inited {
        ctx.Reseed(entropy);
      } else {
        ctx.Instantiate(entropy, []);
        inited := true;
      }
    }

    /** xmpp_rand_bytes: the second attempt never fails. */
    method RandBytes(r: Request) returns (output: Octets)
      requires Valid() && Served(r)
      modifies this, ctx, ctx.V, ctx.C
      ensures Valid()
      ensures var s := Ready(ctx.h, old(Gen()), r);
              !ReseedNeeded(s) && output == HashGen(ctx.h, s.v, r.n) && Gen() == Running(Generated(ctx.h, s))
    {
      hide HashGen, HashDf, Sum, Value;
      var ok;
      ok, output := ctx.Generate(r.n);
      if !ok {
        Reseed(r.entropy);
        ok, output := ctx.Generate(r.n);
        assert ok;
      }
    }
  }

  /** Any run of requests on a new generator follows the standard, state and output. */
  method RunRequests(h: Hash, rs: seq<Request>) returns (output: Octets, rand: XmppRand)
    requires forall k :: 0 <= k < |rs| ==> Served(rs[k])
    ensures output == RunOutput(h, Uninstantiated, rs)
    ensures rand.Valid() && rand.Gen() == RunState(h, Uninstantiated, rs)
  {
    hide HashGen, Generated, Ready;
    rand := new XmppRand(h);
    output := [];
    for k := 0 to |rs|
      invariant rand.Valid() && rand.ctx.h == h && fresh(rand) && fresh(rand.ctx) && fresh(rand.ctx.V) && fresh(rand.ctx.C)
      invariant rand.Gen() == RunState(h, Uninstantiated, rs[..k])
      invariant output == RunOutput(h, Uninstantiated, rs[..k])
    {
      assert rs[..k + 1][..k] == rs[..k];
      var more := rand.RandBytes(rs[k]);
      output := output + more;
    }
    assert rs[..|rs|] == rs;
  }

  /** Table 2 of SP 800-90A for SHA-1: 160 bits of output, 440 bits of seed; the interval is below 2^48. */
  lemma SizesOfSha1(h: Hash, input: Octets, s: State)
    ensures 8 * |h(input)| == 160 && 8 * SEEDLEN == 8 * |s.v| == 8 * |s.c| == 440
    ensures ReseedNeeded(s) <==> s.counter == 0 || s.counter >= 0x8000_0000
  {
  }
}
