/** Byte strings, the order Redis and Lua compare them in, and the ordered view
    of a zero-score sorted set. */
module Bytes {

  type Byte = b: int | 0 <= b < 256
  type Text = seq<Byte>

  const BAR: Byte := 124
  const TAB: Byte := 9
  const ZERO: Byte := 48
  const NINE: Byte := 57

  /** memcmp order: the order of Lua `<`, Go `<` and of equal-score sorted-set members. */
  predicate Less(a: Text, b: Text) {
    b != [] && (a == [] || a[0] < b[0] || (a[0] == b[0] && Less(a[1..], b[1..])))
  }

  lemma {:induction false} LessIrreflexive(a: Text)
    ensures !Less(a, a)
  {
    if a != [] { LessIrreflexive(a[1..]); }
  }

  lemma {:induction false} LessTransitive(a: Text, b: Text, c: Text)
    requires Less(a, b) && Less(b, c)
    ensures Less(a, c)
  {
    if a != [] && a[0] == b[0] == c[0] { LessTransitive(a[1..], b[1..], c[1..]); }
  }

  lemma {:induction false} LessTotal(a: Text, b: Text)
    ensures Less(a, b) || a == b || Less(b, a)
  {
    if a != [] && b != [] && a[0] == b[0] {
      LessTotal(a[1..], b[1..]);
      assert a == [a[0]] + a[1..] && b == [b[0]] + b[1..];
    }
  }

  lemma LessAsymmetric(a: Text, b: Text)
    requires Less(a, b)
    ensures !Less(b, a) && a != b
  {
    LessIrreflexive(a);
    if Less(b, a) { LessTransitive(a, b, a); }
  }

  /** With a first field of fixed width the order is lexicographic over the fields. */
  lemma {:induction false} LessConcat(a: Text, x: Text, b: Text, y: Text)
    requires |a| == |b|
    ensures Less(a + x, b + y) <==> (Less(a, b) || (a == b && Less(x, y)))
  {
    if a == [] {
      assert a + x == x && b + y == y;
    } else {
      assert (a + x)[1..] == a[1..] + x && (b + y)[1..] == b[1..] + y;
      LessConcat(a[1..], x, b[1..], y);
      assert a == [a[0]] + a[1..] && b == [b[0]] + b[1..];
    }
  }

  /** The first index at or after `from` holding `c`, or |s|. */
  function Find(s: Text, c: Byte, from: nat): (i: nat)
    requires from <= |s|
    ensures from <= i <= |s|
    ensures i < |s| ==> s[i] == c
    ensures forall k :: from <= k < i ==> s[k] != c
    decreases |s| - from
  {
    if from == |s| || s[from] == c then from else Find(s, c, from + 1)
  }

  lemma FindUnique(s: Text, c: Byte, from: nat, i: nat)
    requires from <= i < |s| && s[i] == c && forall k :: from <= k < i ==> s[k] != c
    ensures Find(s, c, from) == i
  {
    assert s[i] == c;
  }

  // ----- ordered view of a set of members ---------------------------------

  function Below(s: set<Text>, m: Text): set<Text> {
    set x | x in s && Less(x, m)
  }

  /** ZRANK of a member: how many members sort strictly before it. */
  function RankOf(s: set<Text>, m: Text): nat {
    |Below(s, m)|
  }

  predicate IsMin(s: set<Text>, m: Text) {
    m in s && forall x :: x in s && x != m ==> Less(m, x)
  }

  lemma {:induction false} MinExists(s: set<Text>)
    requires s != {}
    ensures exists m :: IsMin(s, m)
  {
    var p :| p in s;
    var rest := s - {p};
    if rest == {} {
      assert s == {p};
      assert IsMin(s, p);
    } else {
      MinExists(rest);
      var q :| IsMin(rest, q);
      LessTotal(p, q);
      if Less(p, q) {
        forall x | x in s && x != p ensures Less(p, x) {
          if x != q { LessTransitive(p, q, x); }
        }
        assert IsMin(s, p);
      } else {
        assert IsMin(s, q);
      }
    }
  }

  lemma MinUnique(s: set<Text>, m: Text, n: Text)
    requires IsMin(s, m) && IsMin(s, n)
    ensures m == n
  {
    if m != n { LessAsymmetric(m, n); }
  }

  function Min(s: set<Text>): (m: Text)
    requires s != {}
    ensures IsMin(s, m)
  {
    MinExists(s);
    assert forall m, n | IsMin(s, m) && IsMin(s, n) :: m == n by {
      forall m, n | IsMin(s, m) && IsMin(s, n) ensures m == n { MinUnique(s, m, n); }
    }
    var m :| m in s && IsMin(s, m);
    m
  }

  /** ZRANGE 0 -1 of a sorted set all of whose scores are equal. */
  function Ordered(s: set<Text>): (r: seq<Text>)
    ensures |r| == |s|
    ensures forall x :: x in r <==> x in s
    decreases |s|
  {
    if s == {} then [] else
      var m := Min(s);
      assert |s - {m}| == |s| - 1;
      [m] + Ordered(s - {m})
  }

  lemma {:induction false} OrderedAscends(s: set<Text>, i: nat, j: nat)
    requires i < j < |s|
    ensures Less(Ordered(s)[i], Ordered(s)[j])
    decreases |s|
  {
    var m := Min(s);
    var rest := Ordered(s - {m});
    if i == 0 {
      assert Ordered(s)[j] == rest[j - 1] && rest[j - 1] in rest;
    } else {
      OrderedAscends(s - {m}, i - 1, j - 1);
    }
  }

  /** The rank of the i-th member of the ordered view is i. */
  lemma {:induction false} RankOfOrdered(s: set<Text>, i: nat)
    requires i < |s|
    ensures RankOf(s, Ordered(s)[i]) == i
    decreases |s|
  {
    var m := Min(s);
    var x := Ordered(s)[i];
    if i == 0 {
      forall y | y in s ensures !Less(y, m) {
        LessIrreflexive(m);
        if y != m { LessAsymmetric(m, y); }
      }
      assert Below(s, m) == {};
    } else {
      var rest := s - {m};
      assert x == Ordered(rest)[i - 1];
      RankOfOrdered(rest, i - 1);
      assert x in rest && Less(m, x);
      assert Below(s, x) == Below(rest, x) + {m};
    }
  }

  /** Conversely a member sits in the ordered view exactly at its rank. */
  lemma OrderedAtRank(s: set<Text>, x: Text)
    requires x in s
    ensures RankOf(s, x) < |s| && Ordered(s)[RankOf(s, x)] == x
  {
    assert x in Ordered(s);
    var i :| 0 <= i < |s| && Ordered(s)[i] == x;
    RankOfOrdered(s, i);
  }
}
