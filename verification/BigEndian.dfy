/** Big-endian byte strings as numbers, and the in-place addition `arr_add`. */
module BigEndian {
  import opened Bytes

  function Pow256(n: nat): (r: nat)
    ensures r >= 1
  {
    if n == 0 then 1 else 256 * Pow256(n - 1)
  }

  /** The number that a byte string represents, most significant byte first. */
  function Value(s: Octets): nat
    decreases |s|
  {
    if |s| == 0 then 0 else 256 * Value(s[..|s| - 1]) + s[|s| - 1]
  }

  /** The n low-order bytes of a number. */
  function Encode(v: nat, n: nat): (s: Octets)
    ensures |s| == n
  {
    if n == 0 then [] else Encode(v / 256, n - 1) + [v % 256]
  }

  lemma {:induction false} ValueBound(s: Octets)
    ensures Value(s) < Pow256(|s|)
    decreases |s|
  {
    if |s| > 0 {
      ValueBound(s[..|s| - 1]);
    }
  }

  lemma LastDigit(s: Octets, c: byte)
    ensures Value(s + [c]) == 256 * Value(s) + c
  {
    assert (s + [c])[..|s|] == s;
  }

  /** Encoding the value of a byte string gives it back. */
  lemma {:induction false} EncodeValue(s: Octets)
    ensures Encode(Value(s), |s|) == s
    decreases |s|
  {
    if |s| > 0 {
      var front, c := s[..|s| - 1], s[|s| - 1];
      assert s == front + [c];
      EncodeValue(front);
    }
  }

  lemma {:induction false} ValueEncode(v: nat, n: nat)
    requires v < Pow256(n)
    ensures Value(Encode(v, n)) == v
  {
    if n > 0 {
      ValueEncode(v / 256, n - 1);
      LastDigit(Encode(v / 256, n - 1), v % 256);
    }
  }

  /** Addition of a number to a byte string, modulo the range of the byte string. */
  function Sum(a: Octets, b: nat): (s: Octets)
    ensures |s| == |a|
  {
    Encode((Value(a) + b) % Pow256(|a|), |a|)
  }

  /** `acc >> 8` and `acc & 0xff` */
  function High(acc: nat): (c: nat)
    ensures acc < 512 ==> c <= 1
  {
    acc / 256
  }

  function Low(acc: nat): byte {
    acc % 256
  }

  /** School addition from the last digit, with the carry out of the first digit dropped. */
  function Add(a: Octets, b: Octets, carry: nat): (s: Octets)
    requires |b| <= |a| && carry <= 1
    ensures |s| == |a|
    decreases |a|
  {
    if |a| == 0 then [] else
      var n, m := |a| - 1, |b| - 1;
      var acc := a[n] + carry + (if b == [] then 0 else b[m]);
      Add(a[..n], if b == [] then [] else b[..m], High(acc)) + [Low(acc)]
  }

  lemma {:induction false} AddNothing(a: Octets)
    ensures Add(a, [], 0) == a
    decreases |a|
  {
    if |a| > 0 {
      AddNothing(a[..|a| - 1]);
      assert a == a[..|a| - 1] + [a[|a| - 1]];
    }
  }

  /** All but the last digit. */
  ghost function Front(s: Octets): Octets {
    if s == [] then [] else s[..|s| - 1]
  }

  lemma AddStep(a: Octets, b: Octets, carry: nat)
    requires 0 < |a| && |b| <= |a| && carry <= 1
    ensures var n, m := |a| - 1, |b| - 1;
            var acc := a[n] + carry + (if b == [] then 0 else b[m]);
            Add(a, b, carry) == Add(Front(a), Front(b), High(acc)) + [Low(acc)]
  {
  }

  lemma FrontValue(s: Octets)
    ensures Value(s) == 256 * Value(Front(s)) + (if s == [] then 0 else s[|s| - 1])
  {
  }

  /** The column equation of school addition. */
  lemma Column(front: nat, a: nat, b: nat, d: nat, e: nat, carry: nat, power: nat)
    requires front + power == a + b + High(d + e + carry)
    ensures 256 * front + Low(d + e + carry) + 256 * power == 256 * a + d + (256 * b + e) + carry
  {
  }

  /** School addition adds; `out` tells whether a carry was lost. */
  lemma {:induction false} AddValue(a: Octets, b: Octets, carry: nat) returns (out: bool)
    requires |b| <= |a| && carry <= 1
    ensures Value(Add(a, b, carry)) + (if out then Pow256(|a|) else 0) == Value(a) + Value(b) + carry
    decreases |a|
  {
    if |a| == 0 {
      out := carry == 1;
      assert Pow256(0) == 1;
    } else {
      hide Value, Add, Pow256, High, Low, Front;
      var d, e := a[|a| - 1], if b == [] then 0 else b[|b| - 1];
      var acc := d + e + carry;
      var front := Add(Front(a), Front(b), High(acc));
      out := AddValue(Front(a), Front(b), High(acc));
      AddStep(a, b, carry);
      LastDigit(front, Low(acc));
      FrontValue(a);
      FrontValue(b);
      PowStep(|a| - 1);
      var power := if out then Pow256(|a| - 1) else 0;
      Column(Value(front), Value(Front(a)), Value(Front(b)), d, e, carry, power);
      assert Value(Add(a, b, carry)) == 256 * Value(front) + Low(acc);
      assert (if out then Pow256(|a|) else 0) == 256 * power;
    }
  }

  lemma PowStep(n: nat)
    ensures Pow256(n + 1) == 256 * Pow256(n)
  {
  }

  lemma WrapAround(x: nat, r: nat, m: nat, out: bool)
    requires r < m && x == r + (if out then m else 0)
    ensures x % m == r
  {
    ModDefinition(x, m, if out then 1 else 0, r);
  }

  /** School addition is addition modulo the range of the first operand. */
  lemma AddIsSum(a: Octets, b: Octets)
    requires |b| <= |a|
    ensures Add(a, b, 0) == Sum(a, Value(b))
  {
    hide Value, Add, Pow256, Encode;
    var s := Add(a, b, 0);
    var out := AddValue(a, b, 0);
    ValueBound(s);
    WrapAround(Value(a) + Value(b), Value(s), Pow256(|a|), out);
    EncodeValue(s);
  }

  /** The result does what its name says: its value is the sum modulo 256 to the power of its length. */
  lemma SumValue(a: Octets, b: nat)
    ensures Value(Sum(a, b)) == (Value(a) + b) % Pow256(|a|)
  {
    hide Value, Encode, Pow256;
    ValueEncode((Value(a) + b) % Pow256(|a|), |a|);
  }

  /** One round of `arr_add` on the parts not yet added. */
  lemma AddRound(whole: Octets, u: Octets, v: Octets, carry: nat, acc: nat, tail: Octets)
    requires 0 < |u| && |v| <= |u| && carry <= 1
    requires whole == Add(u, v, carry) + tail
    requires acc == u[|u| - 1] + carry + (if v == [] then 0 else v[|v| - 1])
    ensures High(acc) <= 1
    ensures whole == Add(Front(u), Front(v), High(acc)) + ([Low(acc)] + tail)
  {
    AddStep(u, v, carry);
  }

  /** The body of the loop of `arr_add`; u and v are the digits still to be added. */
  method AddDigit(a: array<byte>, b: array<byte>, i: nat, carry: nat,
                  ghost u: Octets, ghost v: Octets, ghost whole: Octets)
    returns (out: nat)
    requires 1 <= i <= a.Length && b.Length <= a.Length && carry <= 1
    requires |u| == a.Length + 1 - i && |v| == if i <= b.Length then b.Length + 1 - i else 0
    requires u == a[..|u|] && v == b[..|v|]
    requires whole == Add(u, v, carry) + a[|u|..]
    modifies a
    ensures out <= 1
    ensures Front(u) == a[..|u| - 1] && Front(v) == b[..|Front(v)|]
    ensures whole == Add(Front(u), Front(v), out) + a[|u| - 1..]
  {
    hide Add, High, Low;
    ghost var tail := a[|u|..];
    var acc: nat := a[a.Length - i] + carry;
    if i <= b.Length {
      acc := acc + b[b.Length - i];
    }
    AddRound(whole, u, v, carry, acc, tail);
    out := High(acc);
    a[a.Length - i] := Low(acc);
    assert a[|u| - 1..] == [Low(acc)] + tail;
  }

  /** `arr_add`: the first array becomes the sum; the loop stops early once nothing is left to carry. */
  method ArrAdd(a: array<byte>, b: array<byte>)
    requires a.Length >= b.Length
    modifies a
    ensures a[..] == Sum(old(a[..]), Value(old(b[..])))
  {
    hide Add, Value, Sum;
    ghost var x, y := a[..], b[..];
    ghost var u, v := x, y;
    var i, carry := 1, 0;
    while i <= b.Length || (carry != 0 && i <= a.Length)
      invariant 1 <= i <= a.Length + 1 && 0 <= carry <= 1
      invariant |u| == a.Length + 1 - i && |v| == if i <= b.Length then b.Length + 1 - i else 0
      invariant u == a[..|u|] && v == b[..|v|]
      invariant Add(x, y, 0) == Add(u, v, carry) + a[|u|..]
      decreases a.Length + 1 - i
    {
      carry := AddDigit(a, b, i, carry, u, v, Add(x, y, 0));
      u, v := Front(u), Front(v);
      i := i + 1;
    }
    if i <= a.Length {
      AddNothing(u);
    } else {
      NothingLeft(u, carry);
    }
    assert a[..] == a[..|u|] + a[|u|..];
    AddIsSum(x, y);
  }

  lemma NothingLeft(a: Octets, carry: nat)
    requires a == [] && carry <= 1
    ensures Add(a, [], carry) == a
  {
  }
}
