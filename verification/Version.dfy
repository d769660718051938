/** Canonical release versions: three decimal components without leading zeros. */
module Version {
  import opened Bytes
  import opened Decimal
  import opened Encode

  const DOT: Byte := 46

  datatype Number = Number(major: nat, minor: nat, patch: nat)

  /** (0|[1-9]\d*) over the ASCII digits. */
  predicate Component(t: Text) { t != [] && AllDigits(t) && (t[0] == ZERO ==> |t| == 1) }

  /** None is the ValueError of a text that is no version or overflows uint64. */
  function ParseVersion(t: Text): Option<Number> {
    var i := Find(t, DOT, 0);
    if i == |t| then None else
      var j := Find(t, DOT, i + 1);
      if j == |t| then None else
        var (a, b, c) := (t[..i], t[i + 1..j], t[j + 1..]);
        if !Component(a) || !Component(b) || !Component(c) then None
        else if Value(a) >= UINT64 || Value(b) >= UINT64 || Value(c) >= UINT64 then None
        else Some(Number(Value(a), Value(b), Value(c)))
  }

  function ShowVersion(n: Number): Text { Joined(Digits(n.major), Digits(n.minor), Digits(n.patch), DOT) }

  predicate Fits(n: Number) { n.major < UINT64 && n.minor < UINT64 && n.patch < UINT64 }

  /** The tuple order of Python. */
  predicate Newer(a: Number, b: Number) {
    || a.major > b.major
    || (a.major == b.major && a.minor > b.minor)
    || (a.major == b.major && a.minor == b.minor && a.patch > b.patch)
  }

  /** The three components as digits of one number to the base 2^64. */
  function Weight(n: Number): nat { (n.major * UINT64 + n.minor) * UINT64 + n.patch }

  lemma DigitsCompare(a: nat, b: nat, x: nat, y: nat)
    requires x < UINT64 && y < UINT64
    ensures a * UINT64 + x > b * UINT64 + y <==> a > b || (a == b && x > y)
    ensures a * UINT64 + x == b * UINT64 + y <==> a == b && x == y
  {
  }

  /** Newer is the order of the weights, and equal weights are equal numbers. */
  lemma NewerIsGreater(a: Number, b: Number)
    requires Fits(a) && Fits(b)
    ensures Newer(a, b) <==> Weight(a) > Weight(b)
    ensures a == b <==> Weight(a) == Weight(b)
  {
    DigitsCompare(a.major * UINT64 + a.minor, b.major * UINT64 + b.minor, a.patch, b.patch);
    DigitsCompare(a.major, b.major, a.minor, b.minor);
  }

  lemma ComponentUnique(a: Text, b: Text)
    requires Component(a) && Component(b) && Value(a) == Value(b)
    ensures a == b
  {
    hide Value, Digits;
    if |a| > |b| && a[0] != ZERO { LongerIsLarger(a, b); }
    if |b| > |a| && b[0] != ZERO { LongerIsLarger(b, a); }
    SameWidthOrder(a, b);
  }

  lemma DigitsComponent(n: nat)
    ensures Component(Digits(n))
  {
  }

  lemma PartsJoin(t: Text, i: nat, j: nat)
    requires i < j < |t| && t[i] == DOT && t[j] == DOT
    ensures t == Joined(t[..i], t[i + 1..j], t[j + 1..], DOT)
  {
  }

  /** version() accepts exactly the canonical texts of uint64 triples, so a text and
      its number determine each other. */
  lemma VersionExact(t: Text, n: Number)
    ensures ParseVersion(t) == Some(n) <==> t == ShowVersion(n) && Fits(n)
  {
    hide Value, Digits, Joined, Find;
    DigitsComponent(n.major);
    DigitsComponent(n.minor);
    DigitsComponent(n.patch);
    if ParseVersion(t) == Some(n) {
      var i := Find(t, DOT, 0);
      var j := Find(t, DOT, i + 1);
      PartsJoin(t, i, j);
      ComponentUnique(t[..i], Digits(n.major));
      ComponentUnique(t[i + 1..j], Digits(n.minor));
      ComponentUnique(t[j + 1..], Digits(n.patch));
    }
    if t == ShowVersion(n) && Fits(n) {
      DigitsHaveNo(Digits(n.major), DOT);
      DigitsHaveNo(Digits(n.minor), DOT);
      JoinedFields(Digits(n.major), Digits(n.minor), Digits(n.patch), DOT);
    }
  }
}
