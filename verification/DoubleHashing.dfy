/** The string hash and the probe sequence shared by the symbol tables and the attribute table. */
module DoubleHashing {
  import opened Bytes

  /** One more than the largest `unsigned long`; 32 bits, as on Windows. */
  const WORD: nat := 0x1_0000_0000

  /** CHAR_HASH: multiply by a prime, then exclusive-or the low byte with the character. */
  function CharHash(h: nat, c: byte): (r: nat)
    ensures r < WORD
  {
    var t := (h * 0xF4243) % WORD;
    assert Pow2(8) == 256;
    t / 256 * 256 + Xor(t % 256, c, 8)
  }

  /** The hash of a character sequence that extends one whose hash is h. */
  function HashOn(h: nat, s: Octets): nat {
    if s == [] then h else CharHash(HashOn(h, s[..|s| - 1]), s[|s| - 1])
  }

  lemma Pow2Eight(power: nat)
    requires power >= 3
    ensures Pow2(power) == 8 * Pow2(power - 3)
  {
    assert Pow2(power) == 2 * Pow2(power - 1);
    assert Pow2(power - 1) == 2 * Pow2(power - 2);
  }

  /** SECOND_HASH with mask = Pow2(power) - 1: the bits of the hash above the index. */
  function SecondHash(h: nat, power: nat): (second: nat)
    requires power >= 3
    ensures second < Pow2(power) / 4
  {
    Pow2Eight(power);
    (h - h % Pow2(power)) / Pow2(power - 1) % (Pow2(power) / 4)
  }

  /** `(unsigned char)(second | 1)`. */
  function OddStep(second: nat): (step: nat)
    ensures step % 2 == 1 && step <= second + 1
  {
    (if second % 2 == 0 then second + 1 else second) % 256
  }

  /** PROBE_STEP: the second hash with its lowest bit set, cut to an unsigned char. */
  function ProbeStep(h: nat, power: nat): (step: nat)
    requires power >= 3
    ensures step % 2 == 1
    ensures step < Pow2(power)
  {
    Pow2Eight(power);
    OddStep(SecondHash(h, power))
  }

  /** The slot reached after n collisions. */
  function ProbeAt(h: nat, power: nat, n: nat): (i: nat)
    requires power >= 3
    ensures i < Pow2(power)
  {
    (h - n * ProbeStep(h, power)) % Pow2(power)
  }

  /** `h & mask` for a table whose size is a power of two. */
  function Masked(h: nat, size: nat): (i: nat)
    requires size > 0
    ensures i < size
  {
    h % size
  }

  lemma ProbeStart(h: nat, power: nat)
    requires power >= 3
    ensures ProbeAt(h, power, 0) == Masked(h, Pow2(power))
  {
  }

  lemma StepBack(x: int, m: nat, step: nat)
    requires step < m
    ensures var i := x % m;
            (x - step) % m == if i < step then i + m - step else i - step
  {
    var i := x % m;
    var q := x / m;
    assert x == m * q + i;
    if i < step {
      assert m * (q - 1) == m * q - m;
      ModDefinition(x - step, m, q - 1, i + m - step);
    } else {
      ModDefinition(x - step, m, q, i - step);
    }
  }

  /** `i < step ? (i += size - step) : (i -= step)` moves to the next slot of the sequence. */
  lemma ProbeNext(h: nat, power: nat, n: nat)
    requires power >= 3
    ensures var i, step := ProbeAt(h, power, n), ProbeStep(h, power);
            ProbeAt(h, power, n + 1) == if i < step then i + Pow2(power) - step else i - step
  {
    hide ProbeStep, Pow2;
    var step := ProbeStep(h, power);
    assert (n + 1) * step == n * step + step;
    StepBack(h - n * step, Pow2(power), step);
  }

  lemma OddTimesEven(x: nat, step: nat, t: nat) returns (z: nat)
    requires step % 2 == 1 && x * step == 2 * t
    ensures x == 2 * z && z * step == t
  {
    var s := step / 2;
    assert x * step == 2 * (x * s) + x by {
      assert step == 2 * s + 1;
      assert x * (2 * s + 1) == x * (2 * s) + x;
      assert x * (2 * s) == 2 * (x * s);
    }
    z := t - x * s;
    assert 2 * (z * step) == (2 * z) * step;
  }

  /** An odd number shares no factor with a power of two. */
  lemma {:induction false} OddFactor(power: nat, x: nat, step: nat, q: nat)
    requires step % 2 == 1
    requires x * step == Pow2(power) * q
    ensures exists y: nat :: x == Pow2(power) * y
  {
    if power == 0 {
      assert x * step == q && Pow2(0) == 1;
      assert x == Pow2(power) * x;
    } else {
      var half := Pow2(power - 1);
      assert Pow2(power) * q == 2 * (half * q);
      var z := OddTimesEven(x, step, half * q);
      OddFactor(power - 1, z, step, q);
      var y: nat :| z == half * y;
      assert Pow2(power) * y == 2 * (half * y);
    }
  }

  lemma SameResidue(x: int, y: int, m: nat)
    requires m > 0 && x % m == y % m && x >= y
    ensures exists q: nat :: x - y == m * q
  {
    var q := x / m - y / m;
    assert x - y == m * (x / m) - m * (y / m) == m * q;
    MulSign(m, q);
    assert q >= 0;
    assert x - y == m * q;
  }

  lemma OddStepsDistinct(h: nat, power: nat, step: nat, a: nat, b: nat)
    requires step % 2 == 1
    requires a < b < Pow2(power)
    ensures (h - a * step) % Pow2(power) != (h - b * step) % Pow2(power)
  {
    var m := Pow2(power);
    var x, y := h - a * step, h - b * step;
    assert x - y == b * step - a * step == (b - a) * step;
    if x % m == y % m {
      SameResidue(x, y, m);
      var q: nat :| x - y == m * q;
      OddFactor(power, b - a, step, q);
      var k: nat :| b - a == m * k;
      MulSign(m, k);
      assert false;
    }
  }

  /** The first Pow2(power) probes are pairwise different slots. */
  lemma ProbesDistinct(h: nat, power: nat, a: nat, b: nat)
    requires power >= 3
    requires a < b < Pow2(power)
    ensures ProbeAt(h, power, a) != ProbeAt(h, power, b)
  {
    hide ProbeStep, Pow2;
    OddStepsDistinct(h, power, ProbeStep(h, power), a, b);
  }

  /** The first n slots of the probe sequence of hash h are occupied. */
  ghost predicate Busy(occupied: set<nat>, power: nat, h: nat, n: nat)
    requires power >= 3
  {
    forall k :: 0 <= k < n ==> ProbeAt(h, power, k) in occupied
  }

  /** Slot j is reached from hash h across occupied slots only. */
  ghost predicate Reached(occupied: set<nat>, power: nat, h: nat, j: nat)
    requires power >= 3
  {
    exists n: nat :: ProbeAt(h, power, n) == j && Busy(occupied, power, h, n)
  }

  ghost function Visited(h: nat, power: nat, n: nat): set<nat>
    requires power >= 3
  {
    set k | 0 <= k < n :: ProbeAt(h, power, k)
  }

  lemma {:induction false} VisitedSize(h: nat, power: nat, n: nat)
    requires power >= 3
    requires n <= Pow2(power)
    ensures |Visited(h, power, n)| == n
  {
    if n == 0 {
      assert Visited(h, power, n) == {};
    } else {
      VisitedSize(h, power, n - 1);
      var last := ProbeAt(h, power, n - 1);
      forall k | 0 <= k < n - 1
        ensures ProbeAt(h, power, k) != last
      {
        ProbesDistinct(h, power, k, n - 1);
      }
      assert last !in Visited(h, power, n - 1);
      assert Visited(h, power, n) == Visited(h, power, n - 1) + {last};
    }
  }

  lemma SubsetSize<T>(a: set<T>, b: set<T>)
    requires a <= b
    ensures |a| <= |b|
  {
    assert b == a + (b - a);
  }

  /** A probe loop stops: it passes no more slots than are occupied. */
  lemma ProbesBounded(occupied: set<nat>, power: nat, h: nat, n: nat)
    requires power >= 3
    requires n <= Pow2(power) && Busy(occupied, power, h, n)
    ensures n <= |occupied|
  {
    VisitedSize(h, power, n);
    SubsetSize(Visited(h, power, n), occupied);
  }

  lemma ReachedGrows(occupied: set<nat>, more: set<nat>, power: nat, h: nat, j: nat)
    requires power >= 3 && occupied <= more && Reached(occupied, power, h, j)
    ensures Reached(more, power, h, j)
  {
    hide ProbeAt;
    var n: nat :| ProbeAt(h, power, n) == j && Busy(occupied, power, h, n);
    assert Busy(more, power, h, n);
  }

  /** What is reached from h lies before the first free slot of h's probe sequence. */
  lemma ReachedBefore(occupied: set<nat>, power: nat, h: nat, j: nat, n: nat)
    requires power >= 3 && Reached(occupied, power, h, j) && j in occupied
    requires ProbeAt(h, power, n) !in occupied
    ensures exists k :: 0 <= k < n && ProbeAt(h, power, k) == j
  {
    hide ProbeAt;
    var k: nat :| ProbeAt(h, power, k) == j && Busy(occupied, power, h, k);
    assert k <= n;
  }
}
