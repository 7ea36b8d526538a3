/** Conversion between UTF-8 and UTF-16: `utf8_toUtf16` and the converters of DEFINE_UTF16_TO_UTF8. */
module Converters {
  import ByteTypes

  // ----- the checks on UTF-8

  /** UTF8_INVALID2 */
  predicate Invalid2(a: bv8, b: bv8) {
    a < 0xC2 || b & 0x80 == 0 || b & 0xC0 == 0xC0
  }

  /** UTF8_INVALID3 */
  predicate Invalid3(a: bv8, b: bv8, c: bv8) {
    || c & 0x80 == 0
    || (if a == 0xEF && b == 0xBF then c > 0xBD else c & 0xC0 == 0xC0)
    || (if a == 0xE0 then b < 0xA0 || b & 0xC0 == 0xC0
        else b & 0x80 == 0 || (if a == 0xED then b > 0x9F else b & 0xC0 == 0xC0))
  }

  /** UTF8_INVALID4 */
  predicate Invalid4(a: bv8, b: bv8, c: bv8, d: bv8) {
    || d & 0x80 == 0 || d & 0xC0 == 0xC0
    || c & 0x80 == 0 || c & 0xC0 == 0xC0
    || (if a == 0xF0 then b < 0x90 || b & 0xC0 == 0xC0
        else b & 0x80 == 0 || (if a == 0xF4 then b > 0x8F else b & 0xC0 == 0xC0))
  }

  /** The checks on bytes as numbers, with which the tokenizer works, are the same. */
  lemma SameChecks(a: bv8, b: bv8, c: bv8, d: bv8)
    ensures Invalid2(a, b) <==> ByteTypes.Invalid2([a as int, b as int])
    ensures Invalid3(a, b, c) <==> ByteTypes.Invalid3([a as int, b as int, c as int])
    ensures Invalid4(a, b, c, d) <==> ByteTypes.Invalid4([a as int, b as int, c as int, d as int])
  {
    TrailingByte(b);
    TrailingByte(c);
    TrailingByte(d);
  }

  lemma TrailingByte(b: bv8)
    ensures b & 0x80 == 0 <==> b as int < 0x80
    ensures b & 0xC0 == 0xC0 <==> b as int > 0xBF
  {
    assert b & 0x80 == 0 <==> b < 0x80;
    assert b & 0xC0 == 0xC0 <==> b > 0xBF;
  }

  /** The length of a character by its first byte; 0 for a byte that starts none. */
  function Length(b: bv8): (n: nat)
    ensures n <= 4
  {
    if b < 0x80 then 1
    else if b < 0xC0 then 0
    else if b < 0xE0 then 2
    else if b < 0xF0 then 3
    else if b < 0xF5 then 4
    else 0
  }

  /** The text begins with a character that passes the checks. */
  predicate GoodChar(s: seq<bv8>) {
    && s != [] && 0 < Length(s[0]) <= |s|
    && match Length(s[0])
       case 2 => !Invalid2(s[0], s[1])
       case 3 => !Invalid3(s[0], s[1], s[2])
       case 4 => !Invalid4(s[0], s[1], s[2], s[3])
       case _ => true
  }

  ghost predicate Valid(s: seq<bv8>) {
    s == [] || (GoodChar(s) && Valid(s[Length(s[0])..]))
  }

  // ----- one character to UTF-16

  function Unit2(a: bv8, b: bv8): bv16 {
    ((a & 0x1F) as bv16 << 6) | (b & 0x3F) as bv16
  }

  function Unit3(a: bv8, b: bv8, c: bv8): bv16 {
    ((a & 0x0F) as bv16 << 12) | ((b & 0x3F) as bv16 << 6) | (c & 0x3F) as bv16
  }

  function Scalar4(a: bv8, b: bv8, c: bv8, d: bv8): bv32 {
    (((a & 0x07) as bv32 << 18) | ((b & 0x3F) as bv32 << 12) | ((c & 0x3F) as bv32 << 6) | (d & 0x3F) as bv32)
    - 0x10000
  }

  function Truncate16(n: bv32): bv16 {
    (n & 0xFFFF) as bv16
  }

  function Truncate8(n: bv32): bv8 {
    (n & 0xFF) as bv8
  }

  /** The two halves of a surrogate pair. */
  function First(n: bv32): bv16 {
    Truncate16((n >> 10) | 0xD800)
  }

  function Second(n: bv32): bv16 {
    Truncate16((n & 0x3FF) | 0xDC00)
  }

  function CharUnits(s: seq<bv8>): (u: seq<bv16>)
    requires GoodChar(s)
    ensures 1 <= |u| <= 2
  {
    match Length(s[0])
    case 2 => [Unit2(s[0], s[1])]
    case 3 => [Unit3(s[0], s[1], s[2])]
    case 4 =>
      var n := Scalar4(s[0], s[1], s[2], s[3]);
      [First(n), Second(n)]
    case _ => [s[0] as bv16]
  }

  function ToUtf16(s: seq<bv8>): seq<bv16>
    requires Valid(s)
  {
    if s == [] then [] else CharUnits(s) + ToUtf16(s[Length(s[0])..])
  }

  /** The switch of utf8_toUtf16: one character, if there is room for it. */
  method PutUnits(s: seq<bv8>, at: nat, to: array<bv16>, out: nat, toLim: nat) returns (from: nat, end: nat)
    requires at < |s| && GoodChar(s[at..]) && out < toLim <= to.Length
    modifies to
    ensures var u := CharUnits(s[at..]);
            if out + |u| <= toLim then from == at + Length(s[at]) && end == out + |u| && to[out..end] == u
            else from == at && end == out
    ensures forall k :: (0 <= k < out || end <= k < to.Length) ==> to[k] == old(to[k])
  {
    hide Unit2, Unit3, Scalar4, First, Second, Invalid2, Invalid3, Invalid4;
    match Length(s[at])
    case 2 =>
      to[out] := Unit2(s[at], s[at + 1]);
      from, end := at + 2, out + 1;
    case 3 =>
      to[out] := Unit3(s[at], s[at + 1], s[at + 2]);
      from, end := at + 3, out + 1;
    case 4 =>
      if out + 1 == toLim {
        return at, out;
      }
      var n := Scalar4(s[at], s[at + 1], s[at + 2], s[at + 3]);
      to[out], to[out + 1] := First(n), Second(n);
      from, end := at + 4, out + 2;
    case _ =>
      to[out] := s[at] as bv16;
      from, end := at + 1, out + 1;
  }

  lemma ToUtf16Step(s: seq<bv8>, at: nat)
    requires at < |s| && Valid(s[at..])
    ensures GoodChar(s[at..]) && at + Length(s[at]) <= |s| && Valid(s[at + Length(s[at])..])
    ensures ToUtf16(s[at..]) == CharUnits(s[at..]) + ToUtf16(s[at + Length(s[at])..])
  {
  }

  lemma Rejoined<T>(a: seq<T>, b: seq<T>, c: seq<T>)
    ensures a + b + c == a + (b + c)
  {
  }

  /**
   * utf8_toUtf16: input from position fromP on, output into to between toP and toLim.
   * It stops at the end of the input, or where the next character does not fit.
   */
  method Utf8ToUtf16(s: seq<bv8>, fromP: nat, to: array<bv16>, toP: nat, toLim: nat) returns (from: nat, out: nat)
    requires fromP <= |s| && Valid(s[fromP..]) && toP <= toLim <= to.Length
    modifies to
    ensures fromP <= from <= |s| && Valid(s[from..]) && toP <= out <= toLim
    ensures to[toP..out] + ToUtf16(s[from..]) == ToUtf16(s[fromP..])
    ensures forall k :: (0 <= k < toP || out <= k < to.Length) ==> to[k] == old(to[k])
    ensures from < |s| ==> toLim - out < |CharUnits(s[from..])|
  {
    hide GoodChar, CharUnits, Valid, ToUtf16;
    from, out := fromP, toP;
    if fromP < |s| {
      ToUtf16Step(s, fromP);
    }
    while from != |s| && out != toLim
      invariant fromP <= from <= |s| && Valid(s[from..]) && toP <= out <= toLim
      invariant from < |s| ==> GoodChar(s[from..])
      invariant to[toP..out] + ToUtf16(s[from..]) == ToUtf16(s[fromP..])
      invariant forall k :: (0 <= k < toP || out <= k < to.Length) ==> to[k] == old(to[k])
      decreases |s| - from
    {
      ToUtf16Step(s, from);
      ghost var done, u := to[toP..out], CharUnits(s[from..]);
      var next, end := PutUnits(s, from, to, out, toLim);
      if next == from {
        return;
      }
      assert to[toP..end] == done + u;
      Rejoined(done, u, ToUtf16(s[next..]));
      from, out := next, end;
      if from < |s| {
        ToUtf16Step(s, from);
      }
    }
  }

  // ----- UTF-16 in memory, either end first

  function Low(u: bv16): bv8 {
    (u & 0xFF) as bv8
  }

  function High(u: bv16): bv8 {
    (u >> 8) as bv8
  }

  function Stored(us: seq<bv16>, big: bool): (s: seq<bv8>)
    ensures |s| == 2 * |us|
  {
    if us == [] then [] else
      (if big then [High(us[0]), Low(us[0])] else [Low(us[0]), High(us[0])]) + Stored(us[1..], big)
  }

  /** GET_LO */
  function GetLo(p: seq<bv8>, at: nat, big: bool): bv8
    requires at + 2 <= |p|
  {
    if big then p[at + 1] else p[at]
  }

  /** GET_HI */
  function GetHi(p: seq<bv8>, at: nat, big: bool): bv8
    requires at + 2 <= |p|
  {
    if big then p[at] else p[at + 1]
  }

  predicate IsHighSurrogate(hi: bv8) {
    hi == 0xD8 || hi == 0xD9 || hi == 0xDA || hi == 0xDB
  }

  /** Whole units, and no surrogate pair cut in two. */
  ghost predicate WholePairs(p: seq<bv8>, big: bool) {
    p == [] || (|p| >= 2 && UnitsOfChar(p, big) <= |p| && WholePairs(p[UnitsOfChar(p, big)..], big))
  }

  /** The bytes that a character takes in UTF-16. */
  function UnitsOfChar(p: seq<bv8>, big: bool): (n: nat)
    requires |p| >= 2
    ensures n == 2 || n == 4
  {
    if IsHighSurrogate(GetHi(p, 0, big)) then 4 else 2
  }

  // ----- one character to UTF-8

  function Lead2(hi: bv8, lo: bv8): bv8 {
    Truncate8((lo as bv32 >> 6) | (hi as bv32 << 2) | 0xC0)
  }

  /** The last byte of every longer character. */
  function Last(lo: bv8): bv8 {
    Truncate8((lo as bv32 & 0x3F) | 0x80)
  }

  function Lead3(hi: bv8): bv8 {
    Truncate8((hi as bv32 >> 4) | 0xE0)
  }

  function Second3(hi: bv8, lo: bv8): bv8 {
    Truncate8(((hi as bv32 & 0xF) << 2) | (lo as bv32 >> 6) | 0x80)
  }

  function Plane(hi: bv8, lo: bv8): bv32 {
    (((hi as bv32 & 0x3) << 2) | ((lo as bv32 >> 6) & 0x3)) + 1
  }

  function Lead4(hi: bv8, lo: bv8): bv8 {
    Truncate8((Plane(hi, lo) >> 2) | 0xF0)
  }

  function Second4(hi: bv8, lo: bv8): bv8 {
    Truncate8(((lo as bv32 >> 2) & 0xF) | ((Plane(hi, lo) & 0x3) << 4) | 0x80)
  }

  function Third4(lo: bv8, hi2: bv8, lo2: bv8): bv8 {
    Truncate8(((lo as bv32 & 0x3) << 4) | ((hi2 as bv32 & 0x3) << 2) | (lo2 as bv32 >> 6) | 0x80)
  }

  function Two(hi: bv8, lo: bv8): (s: seq<bv8>)
    ensures |s| == 2
  {
    [Lead2(hi, lo), Last(lo)]
  }

  function Three(hi: bv8, lo: bv8): (s: seq<bv8>)
    ensures |s| == 3
  {
    [Lead3(hi), Second3(hi, lo), Last(lo)]
  }

  function Four(hi: bv8, lo: bv8, hi2: bv8, lo2: bv8): (s: seq<bv8>)
    ensures |s| == 4
  {
    [Lead4(hi, lo), Second4(hi, lo), Third4(lo, hi2, lo2), Last(lo2)]
  }

  function CharBytes(p: seq<bv8>, big: bool): (s: seq<bv8>)
    requires |p| >= 2 && UnitsOfChar(p, big) <= |p|
    ensures 1 <= |s| <= 4
  {
    var hi, lo := GetHi(p, 0, big), GetLo(p, 0, big);
    if hi == 0 && lo < 0x80 then [lo]
    else if hi < 8 then Two(hi, lo)
    else if IsHighSurrogate(hi) then Four(hi, lo, GetHi(p, 2, big), GetLo(p, 2, big))
    else Three(hi, lo)
  }

  function ToUtf8(p: seq<bv8>, big: bool): seq<bv8>
    requires WholePairs(p, big)
  {
    if p == [] then [] else CharBytes(p, big) + ToUtf8(p[UnitsOfChar(p, big)..], big)
  }

  lemma ToUtf8Step(p: seq<bv8>, at: nat, big: bool)
    requires at < |p| && WholePairs(p[at..], big)
    ensures |p| - at >= 2 && at + UnitsOfChar(p[at..], big) <= |p|
    ensures WholePairs(p[at + UnitsOfChar(p[at..], big)..], big)
    ensures ToUtf8(p[at..], big) == CharBytes(p[at..], big) + ToUtf8(p[at + UnitsOfChar(p[at..], big)..], big)
  {
  }

  /** The bytes of a character, by its position. */
  lemma CharBytesAt(p: seq<bv8>, at: nat, big: bool)
    requires at + 2 <= |p| && at + UnitsOfChar(p[at..], big) <= |p|
    ensures var hi, lo := GetHi(p, at, big), GetLo(p, at, big);
            && (IsHighSurrogate(hi) <==> UnitsOfChar(p[at..], big) == 4) && (IsHighSurrogate(hi) ==> hi >= 8)
            && (IsHighSurrogate(hi) ==> at + 4 <= |p|)
            && CharBytes(p[at..], big) ==
               if hi == 0 && lo < 0x80 then [lo]
               else if hi < 8 then Two(hi, lo)
               else if IsHighSurrogate(hi) then Four(hi, lo, GetHi(p, at + 2, big), GetLo(p, at + 2, big))
               else Three(hi, lo)
  {
    hide Two, Three, Four;
  }

  /** The switch of the converters to UTF-8: one character, if there is room for it. */
  method PutBytes(p: seq<bv8>, big: bool, at: nat, to: array<bv8>, out: nat, toLim: nat)
    returns (fits: bool, from: nat, end: nat)
    requires at + 2 <= |p| && at + UnitsOfChar(p[at..], big) <= |p| && out <= toLim <= to.Length
    modifies to
    ensures var b := CharBytes(p[at..], big);
            && fits == (out + |b| <= toLim)
            && (fits ==> from == at + UnitsOfChar(p[at..], big) && end == out + |b| && to[out..end] == b)
            && (!fits ==> from == at && end == out)
    ensures forall k :: (0 <= k < out || end <= k < to.Length) ==> to[k] == old(to[k])
  {
    hide Two, Three, Four, CharBytes, UnitsOfChar, GetHi, GetLo, IsHighSurrogate;
    CharBytesAt(p, at, big);
    fits, from, end := false, at, out;
    var lo, hi := GetLo(p, at, big), GetHi(p, at, big);
    if hi == 0 && lo < 0x80 {
      if out == toLim {
        return;
      }
      to[out] := lo;
      end := out + 1;
    } else if hi < 8 {
      if toLim - out < 2 {
        return;
      }
      var b := Two(hi, lo);
      to[out], to[out + 1] := b[0], b[1];
      end := out + 2;
    } else if !IsHighSurrogate(hi) {
      if toLim - out < 3 {
        return;
      }
      var b := Three(hi, lo);
      to[out], to[out + 1], to[out + 2] := b[0], b[1], b[2];
      end := out + 3;
    } else {
      if toLim - out < 4 {
        return;
      }
      from := from + 2;
      var b := Four(hi, lo, GetHi(p, from, big), GetLo(p, from, big));
      to[out], to[out + 1], to[out + 2], to[out + 3] := b[0], b[1], b[2], b[3];
      end := out + 4;
    }
    fits, from := true, from + 2;
  }

  /** little2_toUtf8 and big2_toUtf8. */
  method Utf16ToUtf8(p: seq<bv8>, big: bool, fromP: nat, to: array<bv8>, toP: nat, toLim: nat)
    returns (from: nat, out: nat)
    requires fromP <= |p| && WholePairs(p[fromP..], big) && toP <= toLim <= to.Length
    modifies to
    ensures fromP <= from <= |p| && WholePairs(p[from..], big) && toP <= out <= toLim
    ensures to[toP..out] + ToUtf8(p[from..], big) == ToUtf8(p[fromP..], big)
    ensures forall k :: (0 <= k < toP || out <= k < to.Length) ==> to[k] == old(to[k])
    ensures from < |p| ==> |p| - from >= 2 && UnitsOfChar(p[from..], big) <= |p| - from
                           && toLim - out < |CharBytes(p[from..], big)|
  {
    hide CharBytes, ToUtf8, WholePairs, UnitsOfChar, GetHi, GetLo, IsHighSurrogate;
    from, out := fromP, toP;
    while from != |p|
      invariant fromP <= from <= |p| && WholePairs(p[from..], big) && toP <= out <= toLim
      invariant to[toP..out] + ToUtf8(p[from..], big) == ToUtf8(p[fromP..], big)
      invariant forall k :: (0 <= k < toP || out <= k < to.Length) ==> to[k] == old(to[k])
      decreases |p| - from
    {
      ToUtf8Step(p, from, big);
      ghost var done, b := to[toP..out], CharBytes(p[from..], big);
      var fits, next, end := PutBytes(p, big, from, to, out, toLim);
      if !fits {
        return;
      }
      assert to[toP..end] == done + b;
      from, out := next, end;
    }
  }

  // ----- there and back

  lemma Back1(a: bv8)
    requires a < 0x80
    ensures High(a as bv16) == 0 && Low(a as bv16) == a
  {
  }

  lemma Back2(a: bv8, b: bv8)
    requires 0xC0 <= a < 0xE0 && !Invalid2(a, b)
    ensures var u := Unit2(a, b);
            High(u) < 8 && !(High(u) == 0 && Low(u) < 0x80) && Two(High(u), Low(u)) == [a, b]
  {
  }

  lemma Back3(a: bv8, b: bv8, c: bv8)
    requires 0xE0 <= a < 0xF0 && !Invalid3(a, b, c)
    ensures var u := Unit3(a, b, c);
            High(u) >= 8 && !IsHighSurrogate(High(u)) && Three(High(u), Low(u)) == [a, b, c]
  {
    hide Unit3, Lead3, Second3, Last, Invalid3, IsHighSurrogate;
    Back3Range(a, b, c);
    Back3First(a, b, c);
    Back3Second(a, b, c);
    Back3Last(a, b, c);
  }

  lemma Back3Range(a: bv8, b: bv8, c: bv8)
    requires 0xE0 <= a < 0xF0 && !Invalid3(a, b, c)
    ensures High(Unit3(a, b, c)) >= 8 && !IsHighSurrogate(High(Unit3(a, b, c)))
  {
  }

  lemma Back3First(a: bv8, b: bv8, c: bv8)
    requires 0xE0 <= a < 0xF0
    ensures Lead3(High(Unit3(a, b, c))) == a
  {
  }

  lemma Back3Second(a: bv8, b: bv8, c: bv8)
    requires !Invalid3(a, b, c)
    ensures Second3(High(Unit3(a, b, c)), Low(Unit3(a, b, c))) == b
  {
  }

  lemma Back3Last(a: bv8, b: bv8, c: bv8)
    requires !Invalid3(a, b, c)
    ensures Last(Low(Unit3(a, b, c))) == c
  {
  }

  lemma Back4(a: bv8, b: bv8, c: bv8, d: bv8)
    requires 0xF0 <= a < 0xF5 && !Invalid4(a, b, c, d)
    ensures var n := Scalar4(a, b, c, d);
            && IsHighSurrogate(High(First(n)))
            && Four(High(First(n)), Low(First(n)), High(Second(n)), Low(Second(n))) == [a, b, c, d]
  {
  }

  /** The memory of some units, one by one. */
  lemma StoredUnits(us: seq<bv16>, rest: seq<bv16>, big: bool)
    ensures Stored(us + rest, big) == Stored(us, big) + Stored(rest, big)
  {
    hide High, Low;
    if us == [] {
      assert us + rest == rest;
    } else {
      assert (us + rest)[1..] == us[1..] + rest;
      StoredUnits(us[1..], rest, big);
    }
  }

  lemma StoredOne(u: bv16, rest: seq<bv8>, big: bool)
    ensures var p := Stored([u], big) + rest;
            GetHi(p, 0, big) == High(u) && GetLo(p, 0, big) == Low(u) && p[2..] == rest
  {
  }

  lemma StoredTwo(u: bv16, v: bv16, rest: seq<bv8>, big: bool)
    ensures var p := Stored([u, v], big) + rest;
            && GetHi(p, 0, big) == High(u) && GetLo(p, 0, big) == Low(u)
            && GetHi(p, 2, big) == High(v) && GetLo(p, 2, big) == Low(v) && p[4..] == rest
  {
  }

  /** A character and what follows it in UTF-16: the converter takes the character back. */
  lemma CharBack(s: seq<bv8>, rest: seq<bv8>, big: bool)
    requires GoodChar(s)
    ensures var p := Stored(CharUnits(s), big) + rest;
            && UnitsOfChar(p, big) == 2 * |CharUnits(s)| && p[UnitsOfChar(p, big)..] == rest
            && CharBytes(p, big) == s[..Length(s[0])]
  {
    hide High, Low, Stored, GetHi, GetLo, Two, Three, Four, First, Second, Unit2, Unit3, Scalar4, Invalid2, Invalid3,
         Invalid4, IsHighSurrogate;
    match Length(s[0])
    case 2 =>
      Back2(s[0], s[1]);
      StoredOne(Unit2(s[0], s[1]), rest, big);
      NoSurrogate(High(Unit2(s[0], s[1])));
    case 3 =>
      Back3(s[0], s[1], s[2]);
      StoredOne(Unit3(s[0], s[1], s[2]), rest, big);
    case 4 =>
      var n := Scalar4(s[0], s[1], s[2], s[3]);
      Back4(s[0], s[1], s[2], s[3]);
      StoredTwo(First(n), Second(n), rest, big);
      NoSurrogate(High(First(n)));
    case _ =>
      Back1(s[0]);
      StoredOne(s[0] as bv16, rest, big);
      NoSurrogate(0);
  }

  lemma NoSurrogate(hi: bv8)
    ensures hi < 8 ==> !IsHighSurrogate(hi)
  {
  }

  /** Valid UTF-8 comes back byte for byte. */
  lemma {:induction false} ThereAndBack(s: seq<bv8>, big: bool)
    requires Valid(s)
    ensures var p := Stored(ToUtf16(s), big); WholePairs(p, big) && ToUtf8(p, big) == s
    decreases |s|
  {
    hide GoodChar, CharUnits, UnitsOfChar, CharBytes, High, Low;
    if s != [] {
      LengthFits(s);
      var rest := s[Length(s[0])..];
      ThereAndBack(rest, big);
      StoredUnits(CharUnits(s), ToUtf16(rest), big);
      CharBack(s, Stored(ToUtf16(rest), big), big);
      assert s == s[..Length(s[0])] + rest;
    }
  }

  lemma LengthFits(s: seq<bv8>)
    requires GoodChar(s)
    ensures 0 < Length(s[0]) <= |s|
  {
  }

  /** Conversion of a whole text, call by call, each into a buffer of its own size. */
  method ConvertToUtf16(s: seq<bv8>, size: nat -> nat) returns (u: seq<bv16>)
    requires Valid(s) && forall k :: size(k) >= 2
    ensures u == ToUtf16(s)
  {
    hide Valid, ToUtf16, CharUnits;
    u := [];
    var from, k: nat := 0, 0;
    assert s[0..] == s;
    while from != |s|
      invariant from <= |s| && Valid(s[from..]) && u + ToUtf16(s[from..]) == ToUtf16(s)
      decreases |s| - from
    {
      var to := new bv16[size(k)];
      ghost var before := from;
      var out;
      from, out := Utf8ToUtf16(s, from, to, 0, to.Length);
      LengthsAdd(to[0..out], ToUtf16(s[from..]), ToUtf16(s[before..]));
      assert to[0..out] == to[..out];
      u, k := u + to[..out], k + 1;
    }
    NoUnits(s);
  }

  lemma LengthsAdd<T>(a: seq<T>, b: seq<T>, c: seq<T>)
    ensures a + b == c ==> |a| + |b| == |c|
  {
  }

  lemma NoUnits(s: seq<bv8>)
    ensures Valid(s[|s|..]) && ToUtf16(s[|s|..]) == []
  {
  }

  method ConvertToUtf8(p: seq<bv8>, big: bool, size: nat -> nat) returns (s: seq<bv8>)
    requires WholePairs(p, big) && forall k :: size(k) >= 4
    ensures s == ToUtf8(p, big)
  {
    hide WholePairs, ToUtf8, CharBytes, UnitsOfChar;
    s := [];
    var from, k: nat := 0, 0;
    assert p[0..] == p;
    while from != |p|
      invariant from <= |p| && WholePairs(p[from..], big) && s + ToUtf8(p[from..], big) == ToUtf8(p, big)
      decreases |p| - from
    {
      var to := new bv8[size(k)];
      ghost var before := from;
      var out;
      from, out := Utf16ToUtf8(p, big, from, to, 0, to.Length);
      LengthsAdd(to[0..out], ToUtf8(p[from..], big), ToUtf8(p[before..], big));
      assert to[0..out] == to[..out];
      s, k := s + to[..out], k + 1;
    }
    NoBytes(p, big);
  }

  lemma NoBytes(p: seq<bv8>, big: bool)
    ensures WholePairs(p[|p|..], big) && ToUtf8(p[|p|..], big) == []
  {
  }

  /** Any text that passes the checks survives both conversions, whatever the sizes of the buffers. */
  method Convert(s: seq<bv8>, big: bool, units: nat -> nat, bytes: nat -> nat) returns (t: seq<bv8>)
    requires Valid(s) && (forall k :: units(k) >= 2) && (forall k :: bytes(k) >= 4)
    ensures t == s
  {
    hide Valid, ToUtf16, Stored, WholePairs, ToUtf8;
    var u := ConvertToUtf16(s, units);
    ThereAndBack(s, big);
    t := ConvertToUtf8(Stored(u, big), big, bytes);
  }

  // ----- the meaning of the bytes and units, in plain arithmetic

  /** Section 3 of RFC 3629: the number of a character of two, three or four bytes. */
  function Number2(a: bv8, b: bv8): bv32 {
    (a - 0xC0) as bv32 * 0x40 + (b - 0x80) as bv32
  }

  function Number3(a: bv8, b: bv8, c: bv8): bv32 {
    (a - 0xE0) as bv32 * 0x1000 + (b - 0x80) as bv32 * 0x40 + (c - 0x80) as bv32
  }

  function Number4(a: bv8, b: bv8, c: bv8, d: bv8): bv32 {
    (a - 0xF0) as bv32 * 0x4_0000 + (b - 0x80) as bv32 * 0x1000 + (c - 0x80) as bv32 * 0x40 + (d - 0x80) as bv32
  }

  function NumberOf(s: seq<bv8>): bv32
    requires GoodChar(s)
  {
    match Length(s[0])
    case 2 => Number2(s[0], s[1])
    case 3 => Number3(s[0], s[1], s[2])
    case 4 => Number4(s[0], s[1], s[2], s[3])
    case _ => s[0] as bv32
  }

  /** Section 2.1 of RFC 2781: a number below 2^16 is one unit. */
  predicate IsUnit(u: bv16, n: bv32) {
    n == u as bv32
  }

  /** Any other is a surrogate pair, high half first. */
  predicate IsPair(u: bv16, v: bv16, n: bv32) {
    && 0x1_0000 <= n < 0x11_0000
    && u as bv32 == 0xD800 + (n - 0x1_0000) / 0x400 && v as bv32 == 0xDC00 + (n - 0x1_0000) % 0x400
  }

  lemma Unit1Means(a: bv8)
    ensures IsUnit(a as bv16, a as bv32)
  {
  }

  lemma Unit2Means(a: bv8, b: bv8)
    requires !Invalid2(a, b) && a < 0xE0
    ensures IsUnit(Unit2(a, b), Number2(a, b))
  {
  }

  lemma Unit3Means(a: bv8, b: bv8, c: bv8)
    requires !Invalid3(a, b, c) && 0xE0 <= a < 0xF0
    ensures IsUnit(Unit3(a, b, c), Number3(a, b, c))
  {
  }

  lemma PairMeans(a: bv8, b: bv8, c: bv8, d: bv8)
    requires !Invalid4(a, b, c, d) && 0xF0 <= a < 0xF5
    ensures var n := Scalar4(a, b, c, d); IsPair(First(n), Second(n), Number4(a, b, c, d))
  {
  }

  /** A character is converted to the units of its number. */
  lemma UnitsMean(s: seq<bv8>)
    requires GoodChar(s)
    ensures var u, n := CharUnits(s), NumberOf(s);
            if |u| == 1 then IsUnit(u[0], n) else IsPair(u[0], u[1], n)
  {
    hide Unit2, Unit3, Scalar4, First, Second, Invalid2, Invalid3, Invalid4, Number2, Number3, Number4, IsUnit, IsPair;
    match Length(s[0])
    case 2 => Unit2Means(s[0], s[1]);
    case 3 => Unit3Means(s[0], s[1], s[2]);
    case 4 => PairMeans(s[0], s[1], s[2], s[3]);
    case _ => Unit1Means(s[0]);
  }

  predicate Spells(u: bv16, high: bv8, low: bv8) {
    u == high as bv16 * 0x100 + low as bv16
  }

  lemma HighLow(u: bv16)
    ensures Spells(u, High(u), Low(u))
  {
  }

  /** In memory a unit is its high byte and its low byte, in the order of the encoding. */
  lemma {:induction false} StoredOrder(us: seq<bv16>, big: bool, k: nat)
    requires k < |us|
    ensures var s := Stored(us, big);
            if big then Spells(us[k], s[2 * k], s[2 * k + 1]) else Spells(us[k], s[2 * k + 1], s[2 * k])
  {
    hide High, Low, Spells;
    HighLow(us[0]);
    if k > 0 {
      StoredOrder(us[1..], big, k - 1);
      var s, t := Stored(us, big), Stored(us[1..], big);
      assert s[2 * k] == t[2 * (k - 1)] && s[2 * k + 1] == t[2 * (k - 1) + 1];
    }
  }
}
