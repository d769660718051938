/** Decimal texts: formatting, parsing and the two orders compared on them
    (numeric order, and the byte order of padded or complemented digits). */
module Decimal {
  import opened Bytes

  datatype Option<+T> = None | Some(value: T)

  const UINT64: nat := 0x1_0000_0000_0000_0000
  const INT64: nat := 0x8000_0000_0000_0000

  predicate IsDigit(c: Byte) { ZERO <= c <= NINE }

  predicate AllDigits(d: Text) { forall i :: 0 <= i < |d| ==> IsDigit(d[i]) }

  function Pow10(k: nat): (p: nat)
    ensures p > 0
  {
    if k == 0 then 1 else 10 * Pow10(k - 1)
  }

  /** The number a digit string denotes; leading zeros are allowed and "" is 0. */
  function Value(d: Text): nat
    requires AllDigits(d)
  {
    if d == [] then 0 else Value(d[..|d| - 1]) * 10 + (d[|d| - 1] - ZERO)
  }

  /** strconv.FormatUint / tostring: the digits without leading zeros. */
  function Digits(n: nat): (d: Text)
    ensures AllDigits(d) && d != []
    ensures d[0] == ZERO ==> n == 0
    ensures Value(d) == n
  {
    if n < 10 then [ZERO + n] else
      var q := Digits(n / 10);
      var d := q + [ZERO + n % 10];
      assert d[..|d| - 1] == q;
      d
  }

  lemma {:induction false} ValueFront(c: Byte, d: Text)
    requires IsDigit(c) && AllDigits(d)
    ensures AllDigits([c] + d)
    ensures Value([c] + d) == (c - ZERO) * Pow10(|d|) + Value(d)
  {
    if d == [] {
      assert ([c] + d)[..0] == [];
    } else {
      var k := |d| - 1;
      ValueFront(c, d[..k]);
      assert ([c] + d)[..k + 1] == [c] + d[..k];
      assert (c - ZERO) * Pow10(k + 1) == (c - ZERO) * Pow10(k) * 10;
    }
  }

  lemma {:induction false} ValueBound(d: Text)
    requires AllDigits(d)
    ensures Value(d) < Pow10(|d|)
  {
    if d != [] { ValueBound(d[..|d| - 1]); }
  }

  /** On equally long digit strings byte order is numeric order. */
  lemma {:induction false} SameWidthOrder(a: Text, b: Text)
    requires |a| == |b| && AllDigits(a) && AllDigits(b)
    ensures Less(a, b) <==> Value(a) < Value(b)
    ensures a == b <==> Value(a) == Value(b)
  {
    if a != [] {
      var x, y := a[1..], b[1..];
      assert a == [a[0]] + x && b == [b[0]] + y;
      ValueFront(a[0], x);
      ValueFront(b[0], y);
      SameWidthOrder(x, y);
      ValueBound(x);
      ValueBound(y);
      if a[0] < b[0] { LeadingDigitDecides(a[0] - ZERO, b[0] - ZERO, Pow10(|x|), Value(x), Value(y)); }
      if b[0] < a[0] { LeadingDigitDecides(b[0] - ZERO, a[0] - ZERO, Pow10(|x|), Value(y), Value(x)); }
    }
  }

  lemma LeadingDigitDecides(c: nat, e: nat, p: nat, x: nat, y: nat)
    requires c < e && x < p
    ensures c * p + x < e * p + y
  {
    assert e * p >= (c + 1) * p;
  }

  lemma {:induction false} Pow10Monotone(j: nat, k: nat)
    requires j <= k
    ensures Pow10(j) <= Pow10(k)
  {
    if j < k { Pow10Monotone(j, k - 1); }
  }

  lemma {:induction false} ValueAtLeast(d: Text)
    requires AllDigits(d) && d != [] && d[0] != ZERO
    ensures Value(d) >= Pow10(|d| - 1)
  {
    if |d| > 1 { ValueAtLeast(d[..|d| - 1]); } else { assert d[..0] == []; }
  }

  /** A digit string without a leading zero beats every shorter one. */
  lemma LongerIsLarger(a: Text, b: Text)
    requires AllDigits(a) && AllDigits(b) && |a| > |b| && a[0] != ZERO
    ensures Value(a) > Value(b)
  {
    ValueAtLeast(a);
    ValueBound(b);
    Pow10Monotone(|b|, |a| - 1);
  }

  // ----- rev_cmp ----------------------------------------------------------

  /** string.gsub(a, '^0+', ''), then '' becomes '0'. */
  function StripZeros(a: Text): (s: Text)
    ensures AllDigits(a) ==> AllDigits(s)
  {
    if a == [] then [] else if a[0] == ZERO then StripZeros(a[1..]) else a
  }

  function Canonical(a: Text): Text {
    var s := StripZeros(a);
    if s == [] then [ZERO] else s
  }

  function RevCmp(a: Text, b: Text): int {
    var x, y := Canonical(a), Canonical(b);
    if |x| != |y| then (if |x| > |y| then 1 else -1)
    else if Less(y, x) then 1
    else if Less(x, y) then -1
    else 0
  }

  function Sign(x: int): int { if x > 0 then 1 else if x < 0 then -1 else 0 }

  lemma {:induction false} CanonicalValue(a: Text)
    requires AllDigits(a)
    ensures AllDigits(Canonical(a)) && Value(Canonical(a)) == Value(a)
    ensures Canonical(a)[0] == ZERO ==> |Canonical(a)| == 1
  {
    if a == [] {
    } else if a[0] == ZERO {
      assert a == [a[0]] + a[1..];
      ValueFront(a[0], a[1..]);
      CanonicalValue(a[1..]);
    }
  }

  /** rev_cmp orders decimal strings of any length as the numbers they denote. */
  lemma RevCmpIsNumeric(a: Text, b: Text)
    requires AllDigits(a) && AllDigits(b)
    ensures RevCmp(a, b) == Sign(Value(a) - Value(b))
  {
    CanonicalValue(a);
    CanonicalValue(b);
    var x, y := Canonical(a), Canonical(b);
    if |x| > |y| {
      LongerIsLarger(x, y);
    } else if |y| > |x| {
      LongerIsLarger(y, x);
    } else {
      SameWidthOrder(x, y);
      SameWidthOrder(y, x);
    }
  }

  // ----- fixed width and complemented digits ------------------------------

  function Zeros(k: nat): (z: Text)
    ensures |z| == k && AllDigits(z)
    ensures forall i :: 0 <= i < k ==> z[i] == ZERO
  {
    seq(k, _ => ZERO)
  }

  /** %0*d of a non-negative number that fits the width. */
  function Pad(n: nat, width: nat): (d: Text)
    requires |Digits(n)| <= width
    ensures |d| == width && AllDigits(d)
  {
    Zeros(width - |Digits(n)|) + Digits(n)
  }

  lemma {:induction false} PadValue(k: nat, d: Text)
    requires AllDigits(d)
    ensures AllDigits(Zeros(k) + d) && Value(Zeros(k) + d) == Value(d)
  {
    if k == 0 {
      assert Zeros(0) + d == d;
    } else {
      assert Zeros(k) + d == [ZERO] + (Zeros(k - 1) + d);
      PadValue(k - 1, d);
      ValueFront(ZERO, Zeros(k - 1) + d);
    }
  }

  /** A number below 10^w needs at most w digits. */
  lemma DigitsFit(n: nat, w: nat)
    requires 0 < w
    ensures |Digits(n)| <= w <==> n < Pow10(w)
  {
    var d := Digits(n);
    assert |Digits(0)| == 1;
    ValueBound(d);
    if |d| <= w {
      Pow10Monotone(|d|, w);
    } else {
      ValueAtLeast(d);
      Pow10Monotone(w, |d| - 1);
    }
  }

  /** Each digit d becomes 9 - d. */
  function Complement(d: Text): (c: Text)
    requires AllDigits(d)
    ensures |c| == |d| && AllDigits(c)
    ensures forall i :: 0 <= i < |d| ==> c[i] == ZERO + (9 - (d[i] - ZERO))
  {
    seq(|d|, i requires 0 <= i < |d| => ZERO + (9 - (d[i] - ZERO)))
  }

  lemma {:induction false} ComplementReverses(a: Text, b: Text)
    requires |a| == |b| && AllDigits(a) && AllDigits(b)
    ensures Less(Complement(a), Complement(b)) <==> Less(b, a)
  {
    if a != [] {
      assert Complement(a)[1..] == Complement(a[1..]);
      assert Complement(b)[1..] == Complement(b[1..]);
      ComplementReverses(a[1..], b[1..]);
    }
  }

  // ----- Go's parsers -----------------------------------------------------

  /** strconv.ParseUint(s, 10, 64). */
  function ParseUint(s: Text): (r: Option<nat>)
    ensures r.Some? <==> s != [] && AllDigits(s) && Value(s) < UINT64
  {
    if s != [] && AllDigits(s) && Value(s) < UINT64 then Some(Value(s)) else None
  }

  /** strconv.ParseInt(s, 10, 64): one optional sign, then digits. */
  function ParseInt(s: Text): Option<int> {
    if s == [] then None
    else if s[0] == 43 then ParseMagnitude(s[1..], INT64 - 1, 1)
    else if s[0] == 45 then ParseMagnitude(s[1..], INT64, -1)
    else ParseMagnitude(s, INT64 - 1, 1)
  }

  function ParseMagnitude(s: Text, limit: nat, sign: int): Option<int> {
    if s != [] && AllDigits(s) && Value(s) <= limit then Some(sign * Value(s)) else None
  }
}
