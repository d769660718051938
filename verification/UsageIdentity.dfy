/** The length-prefixed bytes that usage identities are digested from. The digest
    itself is taken as injective. */
module UsageIdentity {
  import opened Bytes

  const IDENTITY_LABEL := "tokendance:usage-identity:v1"
  const BACKFILL_LABEL := "tokendance:usage-identity-backfill:v1"

  /** The bytes of an ASCII text. */
  function Ascii(s: string): (t: Text)
    ensures |t| == |s|
  {
    seq(|s|, i requires 0 <= i < |s| => (s[i] as int) % 256)
  }

  function Pow256(k: nat): (p: nat)
    ensures p > 0
  {
    if k == 0 then 1 else 256 * Pow256(k - 1)
  }

  /** Big-endian bytes of n modulo 256^width. */
  function BigEndian(n: nat, width: nat): (b: Text)
    ensures |b| == width
  {
    if width == 0 then [] else BigEndian(n / 256, width - 1) + [n % 256]
  }

  lemma {:induction false} BigEndianInjective(a: nat, b: nat, width: nat)
    requires a < Pow256(width) && b < Pow256(width) && BigEndian(a, width) == BigEndian(b, width)
    ensures a == b
  {
    if width > 0 {
      var (x, y) := (BigEndian(a / 256, width - 1), BigEndian(b / 256, width - 1));
      assert (x + [a % 256])[..width - 1] == x && (y + [b % 256])[..width - 1] == y;
      assert (x + [a % 256])[width - 1] == a % 256 && (y + [b % 256])[width - 1] == b % 256;
      BigEndianInjective(a / 256, b / 256, width - 1);
    }
  }

  /** One field behind its 32-bit length. */
  function Frame(field: Text): Text { BigEndian(|field| % Pow256(4), 4) + field }

  function Fed(fields: seq<Text>): Text {
    if fields == [] then [] else Frame(fields[0]) + Fed(fields[1..])
  }

  /** What a running HMAC has been fed. */
  class Mac {
    var fed: Text

    constructor ()
      ensures fed == []
    {
      fed := [];
    }

    method Write(data: Text)
      modifies this
      ensures fed == old(fed) + data
    {
      fed := fed + data;
    }
  }

  method WriteIdentityField(mac: Mac, field: Text)
    modifies mac
    ensures mac.fed == old(mac.fed) + Frame(field)
  {
    hide Pow256, BigEndian;
    mac.Write(BigEndian(|field| % Pow256(4), 4));
    mac.Write(field);
    assert mac.fed == old(mac.fed) + (BigEndian(|field| % Pow256(4), 4) + field);
  }

  lemma FedFrames(a: Text, b: Text, c: Text, d: Text)
    ensures Fed([a, b, c, d]) == Frame(a) + Frame(b) + Frame(c) + Frame(d)
    ensures forall e, f :: Fed([a, b, c, d, e, f]) == Frame(a) + Frame(b) + Frame(c) + Frame(d) + Frame(e) + Frame(f)
  {
    hide Frame;
    FedConcat([a], [b, c, d]);
    FedConcat([b], [c, d]);
    FedConcat([c], [d]);
    assert [a] + [b, c, d] == [a, b, c, d] && [b] + [c, d] == [b, c, d] && [c] + [d] == [c, d];
    FedOne(a); FedOne(b); FedOne(c); FedOne(d);
    forall e, f ensures Fed([a, b, c, d, e, f]) == Frame(a) + Frame(b) + Frame(c) + Frame(d) + Frame(e) + Frame(f) {
      FedConcat([a, b, c, d], [e, f]);
      FedConcat([e], [f]);
      assert [a, b, c, d] + [e, f] == [a, b, c, d, e, f] && [e] + [f] == [e, f];
      FedOne(e); FedOne(f);
    }
  }

  lemma FedOne(a: Text)
    ensures Fed([a]) == Frame(a)
  {
    assert [a][1..] == [];
  }

  lemma {:induction false} FedConcat(xs: seq<Text>, ys: seq<Text>)
    ensures Fed(xs + ys) == Fed(xs) + Fed(ys)
  {
    hide Frame;
    if xs == [] {
      assert xs + ys == ys;
    } else {
      assert (xs + ys)[1..] == xs[1..] + ys;
      FedConcat(xs[1..], ys);
    }
  }

  /** The bytes behind a usage identity. */
  method UsageIdentity(harness: Text, session: Text, message: Text) returns (mac: Mac)
    ensures mac.fed == Fed([Ascii(IDENTITY_LABEL), harness, session, message])
  {
    hide Frame, Fed, Ascii;
    mac := new Mac();
    WriteIdentityField(mac, Ascii(IDENTITY_LABEL));
    WriteIdentityField(mac, harness);
    WriteIdentityField(mac, session);
    WriteIdentityField(mac, message);
    FedFrames(Ascii(IDENTITY_LABEL), harness, session, message);
  }

  /** uint64 of a signed 64-bit integer, in eight bytes. */
  function Unsigned(x: int): nat
    requires Int64(x)
  {
    var p := Pow256(8);
    if x < 0 then x + p else x
  }

  predicate Int64(x: int) { 2 * x + Pow256(8) >= 0 && 2 * x < Pow256(8) }

  method BackfillIdentity(harness: Text, eventType: Text, occurredAtMs: int, modelKey: int,
          payload: Text) returns (mac: Mac)
    requires Int64(occurredAtMs) && Int64(modelKey)
    ensures mac.fed == Fed([Ascii(BACKFILL_LABEL), harness, eventType, BigEndian(Unsigned(occurredAtMs), 8),
                            BigEndian(Unsigned(modelKey), 8), payload])
  {
    hide Frame, Fed, Ascii, BigEndian, Unsigned;
    mac := new Mac();
    var (at, mk) := (BigEndian(Unsigned(occurredAtMs), 8), BigEndian(Unsigned(modelKey), 8));
    WriteIdentityField(mac, Ascii(BACKFILL_LABEL));
    WriteIdentityField(mac, harness);
    WriteIdentityField(mac, eventType);
    WriteIdentityField(mac, at);
    WriteIdentityField(mac, mk);
    WriteIdentityField(mac, payload);
    FedFrames(Ascii(BACKFILL_LABEL), harness, eventType, at);
  }

  // ----- injectivity ------------------------------------------------------------------

  predicate Short(fields: seq<Text>) { forall f :: f in fields ==> |f| < Pow256(4) }

  lemma FrameInjective(a: Text, b: Text, x: Text, y: Text)
    requires |a| < Pow256(4) && |b| < Pow256(4) && Frame(a) + x == Frame(b) + y
    ensures a == b && x == y
  {
    hide Pow256, BigEndian;
    var (p, q) := (BigEndian(|a| % Pow256(4), 4), BigEndian(|b| % Pow256(4), 4));
    var whole := Frame(a) + x;
    assert whole[..4] == p && whole[..4] == q;
    ModSmall(|a|, Pow256(4));
    ModSmall(|b|, Pow256(4));
    BigEndianInjective(|a|, |b|, 4);
    assert whole[4..4 + |a|] == a && whole[4..4 + |b|] == b;
    assert whole[4 + |a|..] == x && whole[4 + |b|..] == y;
  }

  lemma ModSmall(n: nat, m: nat)
    requires n < m
    ensures n % m == n
  {
  }

  /** Distinct lists of fields shorter than 2^32 bytes are fed as distinct bytes,
      whatever their number and wherever their boundaries lie. */
  lemma {:induction false} FedInjective(xs: seq<Text>, ys: seq<Text>)
    requires Short(xs) && Short(ys) && Fed(xs) == Fed(ys)
    ensures xs == ys
  {
    hide Frame, Pow256;
    if xs != [] && ys != [] {
      assert xs[0] in xs && ys[0] in ys;
      FrameInjective(xs[0], ys[0], Fed(xs[1..]), Fed(ys[1..]));
      FedInjective(xs[1..], ys[1..]);
      assert xs == [xs[0]] + xs[1..] && ys == [ys[0]] + ys[1..];
    } else if xs != [] {
      FrameLong(xs[0]);
    } else if ys != [] {
      FrameLong(ys[0]);
    }
  }

  lemma FrameLong(a: Text)
    ensures |Frame(a)| >= 4
  {
  }

  lemma OneMore(n: nat, m: nat)
    requires n < m
    ensures (m + n) % m == n
  {
  }

  /** The bound is needed: a field of 2^32 bytes can spell out the frame of what follows. */
  lemma LongFieldsCollide(y: Text, filler: Text)
    requires |y| < Pow256(4) && |filler| == Pow256(4) - 4
    ensures Fed([BigEndian(|y|, 4) + filler, y]) == Fed([[], filler + Frame(y)])
    ensures |BigEndian(|y|, 4) + filler| == Pow256(4)
  {
    hide Frame, BigEndian, Pow256, Fed;
    PowFour();
    var x, z := BigEndian(|y|, 4) + filler, filler + Frame(y);
    FedTwo(x, y);
    FedTwo([], z);
    FrameIs(x);
    FrameIs([]);
    FrameIs(y);
    FrameIs(z);
    OneMore(0, Pow256(4));
    ModSmall(0, Pow256(4));
    OneMore(|y|, Pow256(4));
    assert Frame(x) == BigEndian(0, 4) + x && Frame([]) == BigEndian(0, 4) + [] && Frame(z) == BigEndian(|y|, 4) + z;
    assert BigEndian(0, 4) + (BigEndian(|y|, 4) + filler) + Frame(y)
        == BigEndian(0, 4) + [] + (BigEndian(|y|, 4) + (filler + Frame(y)));
  }

  lemma FedTwo(a: Text, b: Text)
    ensures Fed([a, b]) == Frame(a) + Frame(b)
  {
    hide Frame;
    FedConcat([a], [b]);
    assert [a] + [b] == [a, b];
    FedOne(a);
    FedOne(b);
  }

  lemma FrameIs(a: Text)
    ensures Frame(a) == BigEndian(|a| % Pow256(4), 4) + a && |Frame(a)| == |a| + 4
  {
  }

  lemma PowFour()
    ensures Pow256(4) > 4
  {
    assert Pow256(1) == 256 * Pow256(0) && Pow256(2) == 256 * Pow256(1);
    assert Pow256(3) == 256 * Pow256(2) && Pow256(4) == 256 * Pow256(3);
  }

  /** Equal identities mean equal harness, session and message. */
  lemma IdentityInjective(h: Text, s: Text, m: Text, h': Text, s': Text, m': Text)
    requires Short([h, s, m, h', s', m'])
    requires Fed([Ascii(IDENTITY_LABEL), h, s, m]) == Fed([Ascii(IDENTITY_LABEL), h', s', m'])
    ensures h == h' && s == s' && m == m'
  {
    hide Fed, Ascii;
    LabelsShort();
    var (xs, ys) := ([Ascii(IDENTITY_LABEL), h, s, m], [Ascii(IDENTITY_LABEL), h', s', m']);
    ShortOf([h, s, m, h', s', m']);
    FedInjective(xs, ys);
    assert xs[1] == ys[1] && xs[2] == ys[2] && xs[3] == ys[3];
  }

  lemma ShortOf(fields: seq<Text>)
    requires Short(fields)
    ensures forall i :: 0 <= i < |fields| ==> |fields[i]| < Pow256(4)
  {
  }

  lemma LabelsShort()
    ensures |Ascii(IDENTITY_LABEL)| < |Ascii(BACKFILL_LABEL)| < Pow256(4)
    ensures 8 < Pow256(4)
  {
    PowFour();
    assert Pow256(4) == 256 * Pow256(3) && Pow256(3) >= 1;
  }

  lemma UnsignedInjective(a: int, b: int)
    requires Int64(a) && Int64(b) && BigEndian(Unsigned(a), 8) == BigEndian(Unsigned(b), 8)
    ensures a == b
  {
    hide BigEndian, Pow256;
    BigEndianInjective(Unsigned(a), Unsigned(b), 8);
  }

  /** Equal backfill identities mean equal components, for signed 64-bit numbers. */
  lemma BackfillInjective(h: Text, e: Text, t: int, k: int, p: Text, h': Text, e': Text, t': int, k': int, p': Text)
    requires Short([h, e, p, h', e', p'])
    requires Int64(t) && Int64(k) && Int64(t') && Int64(k')
    requires Fed([Ascii(BACKFILL_LABEL), h, e, BigEndian(Unsigned(t), 8), BigEndian(Unsigned(k), 8), p])
          == Fed([Ascii(BACKFILL_LABEL), h', e', BigEndian(Unsigned(t'), 8), BigEndian(Unsigned(k'), 8), p'])
    ensures h == h' && e == e' && t == t' && k == k' && p == p'
  {
    hide Fed, Ascii, BigEndian, Unsigned, Pow256;
    LabelsShort();
    var xs := [Ascii(BACKFILL_LABEL), h, e, BigEndian(Unsigned(t), 8), BigEndian(Unsigned(k), 8), p];
    var ys := [Ascii(BACKFILL_LABEL), h', e', BigEndian(Unsigned(t'), 8), BigEndian(Unsigned(k'), 8), p'];
    ShortOf([h, e, p, h', e', p']);
    assert |h| < Pow256(4) && |e| < Pow256(4) && |p| < Pow256(4) && |h'| < Pow256(4) && |e'| < Pow256(4) && |p'| < Pow256(4) by {
      var all := [h, e, p, h', e', p'];
      assert all[0] == h && all[1] == e && all[2] == p && all[3] == h' && all[4] == e' && all[5] == p';
    }
    FedInjective(xs, ys);
    assert xs[1] == ys[1] && xs[2] == ys[2] && xs[3] == ys[3] && xs[4] == ys[4] && xs[5] == ys[5];
    UnsignedInjective(t, t');
    UnsignedInjective(k, k');
  }

  /** A usage identity is never a backfill identity. */
  lemma KindsApart(fields: seq<Text>, others: seq<Text>)
    requires Short(fields) && Short(others)
    ensures Fed([Ascii(IDENTITY_LABEL)] + fields) != Fed([Ascii(BACKFILL_LABEL)] + others)
  {
    hide Fed, Ascii, Pow256;
    LabelsShort();
    var (xs, ys) := ([Ascii(IDENTITY_LABEL)] + fields, [Ascii(BACKFILL_LABEL)] + others);
    assert Short(xs) && Short(ys);
    assert xs[0] != ys[0];
    if Fed(xs) == Fed(ys) { FedInjective(xs, ys); }
  }
}
