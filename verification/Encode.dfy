/** The text encodings of the leaderboard index: sorted-set members, user
    payloads and version marks, with the Go and the Lua readers of each. */
module Encode {
  import opened Bytes
  import opened Decimal

  datatype Error = NegativeToken | TokenOverflow | InvalidMember | InvalidUserId
                 | InvalidRegisteredAt | InvalidWindow | InvalidGeneration

  datatype Result<+T> = Ok(value: T) | Err(error: Error)

  const TOKEN_DIGITS: nat := 30
  const REGISTERED_AT_WIDTH: nat := 16
  const MAX_TOKEN: nat := 999_999_999_999_999_999_999_999_999_999
  const DEL: Byte := 68
  const PLUS: Byte := 43

  lemma Pow10Values()
    ensures Pow10(16) == 10_000_000_000_000_000
    ensures Pow10(30) == 1_000_000_000_000_000_000_000_000_000_000
  {
    assert Pow10(2) == 100;
    assert Pow10(4) == 10_000;
    assert Pow10(6) == 1_000_000;
    assert Pow10(8) == 100_000_000;
    assert Pow10(10) == 10_000_000_000;
    assert Pow10(12) == 1_000_000_000_000;
    assert Pow10(14) == 100_000_000_000_000;
    assert Pow10(16) == 10_000_000_000_000_000;
    assert Pow10(18) == 1_000_000_000_000_000_000;
    assert Pow10(20) == 100_000_000_000_000_000_000;
    assert Pow10(22) == 10_000_000_000_000_000_000_000;
    assert Pow10(24) == 1_000_000_000_000_000_000_000_000;
    assert Pow10(26) == 100_000_000_000_000_000_000_000_000;
    assert Pow10(28) == 10_000_000_000_000_000_000_000_000_000;
  }

  lemma FitsToken(n: nat)
    ensures |Digits(n)| <= TOKEN_DIGITS <==> n <= MAX_TOKEN
  {
    Pow10Values();
    DigitsFit(n, TOKEN_DIGITS);
  }

  // ----- tokens -----------------------------------------------------------

  /** Thirty nine's-complement digits, so that more tokens sort first. */
  function EncodeToken(tokens: int): Result<Text> {
    if tokens < 0 then Err(NegativeToken)
    else if |Digits(tokens)| > TOKEN_DIGITS then Err(TokenOverflow)
    else Ok(Complement(Pad(tokens, TOKEN_DIGITS)))
  }

  function DecodeToken(encoded: Text): Result<nat> {
    if |encoded| != TOKEN_DIGITS || !AllDigits(encoded) then Err(InvalidMember)
    else Ok(Value(Complement(encoded)))
  }

  lemma PadAt(n: nat, width: nat, i: nat)
    requires |Digits(n)| <= width && i < width
    ensures var pad := width - |Digits(n)|; Pad(n, width)[i] == if i < pad then ZERO else Digits(n)[i - pad]
  {
  }

  /** The byte loop that fills the thirty-digit buffer. */
  method EncodeTokenBytes(tokens: int) returns (r: Result<Text>)
    ensures r == EncodeToken(tokens)
  {
    if tokens < 0 { return Err(NegativeToken); }
    FitsToken(tokens);
    if tokens > MAX_TOKEN { return Err(TokenOverflow); }
    var digits := Digits(tokens);
    var out := new Byte[TOKEN_DIGITS];
    var pad := TOKEN_DIGITS - |digits|;
    ghost var want := Complement(Pad(tokens, TOKEN_DIGITS));
    assert EncodeToken(tokens) == Ok(want);
    hide Digits, Pad, Complement, EncodeToken;
    for i := 0 to TOKEN_DIGITS
      invariant forall k :: 0 <= k < i ==> out[k] == want[k]
    {
      var d := 0;
      if i >= pad { d := digits[i - pad] - ZERO; }
      PadAt(tokens, TOKEN_DIGITS, i);
      out[i] := ZERO + (9 - d);
    }
    assert out[..] == want;
    r := Ok(out[..]);
  }

  method DecodeTokenBytes(encoded: Text) returns (r: Result<nat>)
    ensures r == DecodeToken(encoded)
  {
    if |encoded| != TOKEN_DIGITS { return Err(InvalidMember); }
    var digits := new Byte[TOKEN_DIGITS];
    for i := 0 to TOKEN_DIGITS
      invariant AllDigits(encoded[..i])
      invariant digits[..i] == Complement(encoded[..i])
    {
      var c := encoded[i];
      if !IsDigit(c) { return Err(InvalidMember); }
      digits[i] := ZERO + (9 - (c - ZERO));
      assert digits[..i + 1] == digits[..i] + [digits[i]];
      assert encoded[..i + 1] == encoded[..i] + [c];
    }
    assert encoded[..TOKEN_DIGITS] == encoded && digits[..] == digits[..TOKEN_DIGITS];
    r := Ok(Value(digits[..]));
  }

  /** Encoding succeeds exactly on 0 <= n < 10^30 and decoding undoes it. */
  lemma TokenRoundTrip(n: int)
    ensures EncodeToken(n).Ok? <==> 0 <= n <= MAX_TOKEN
    ensures EncodeToken(n).Ok? ==> DecodeToken(EncodeToken(n).value) == Ok(n)
  {
    if n >= 0 {
      FitsToken(n);
      if EncodeToken(n).Ok? {
        PadDenotes(n, TOKEN_DIGITS);
        hide Digits, Pad, Complement, Value;
        assert Complement(Complement(Pad(n, TOKEN_DIGITS))) == Pad(n, TOKEN_DIGITS);
      }
    }
  }

  /** Every decodable token text is the encoding of what it decodes to. */
  lemma TokenTextRoundTrip(s: Text)
    requires DecodeToken(s).Ok?
    ensures EncodeToken(DecodeToken(s).value) == Ok(s)
  {
    var c := Complement(s);
    var n := Value(c);
    ValueBound(c);
    Pow10Values();
    FitsToken(n);
    PadIsUnique(n, c);
    assert Complement(c) == s;
  }

  lemma PadIsUnique(n: nat, d: Text)
    requires AllDigits(d) && Value(d) == n && |Digits(n)| <= |d|
    ensures Pad(n, |d|) == d
  {
    PadValue(|d| - |Digits(n)|, Digits(n));
    SameWidthOrder(Pad(n, |d|), d);
  }

  lemma PadDenotes(n: nat, width: nat)
    requires |Digits(n)| <= width
    ensures Value(Pad(n, width)) == n
  {
    PadValue(width - |Digits(n)|, Digits(n));
  }

  lemma PadOrder(a: nat, b: nat, width: nat)
    requires |Digits(a)| <= width && |Digits(b)| <= width
    ensures Less(Pad(a, width), Pad(b, width)) <==> a < b
    ensures Pad(a, width) == Pad(b, width) <==> a == b
  {
    PadDenotes(a, width);
    PadDenotes(b, width);
    SameWidthOrder(Pad(a, width), Pad(b, width));
  }

  // ----- registration time ------------------------------------------------

  /** Time.UnixMilli of an instant given in nanoseconds since the epoch. */
  function UnixMilli(nanos: int): int { nanos / 1_000_000 }

  /** Go's zero Time lies before the epoch, so the sign test covers IsZero too. */
  function EncodeRegisteredAt(nanos: int): Result<Text> {
    var ms := UnixMilli(nanos);
    if ms < 0 then Err(InvalidRegisteredAt)
    else if |Digits(ms)| > REGISTERED_AT_WIDTH then Err(InvalidRegisteredAt)
    else Ok(Pad(ms, REGISTERED_AT_WIDTH))
  }

  function DecodeRegisteredAt(encoded: Text): Result<int> {
    if |encoded| != REGISTERED_AT_WIDTH then Err(InvalidMember)
    else match ParseInt(encoded)
      case None => Err(InvalidMember)
      case Some(ms) => if ms < 0 then Err(InvalidMember) else Ok(ms * 1_000_000)
  }

  // ----- members ----------------------------------------------------------

  predicate ValidUserId(user: Text) {
    user != [] && BAR !in user && TAB !in user
  }

  /** A score and instant that EncodeMember accepts. */
  predicate Encodable(tokens: nat, nanos: int) {
    tokens < UINT64 && UnixMilli(nanos) >= 0 && |Digits(UnixMilli(nanos))| <= REGISTERED_AT_WIDTH
  }

  function EncodeMember(tokens: nat, nanos: int, user: Text): Result<Text>
    requires tokens < UINT64
  {
    if !ValidUserId(user) then Err(InvalidUserId)
    else match EncodeToken(tokens)
      case Err(e) => Err(e)
      case Ok(tokenKey) =>
        match EncodeRegisteredAt(nanos)
        case Err(e) => Err(e)
        case Ok(timeKey) => Ok(tokenKey + [BAR] + timeKey + [BAR] + user)
  }

  datatype Split = Split(tokenKey: Text, timeKey: Text, user: Text)

  function SplitMember(member: Text): Result<Split> {
    var first := Find(member, BAR, 0);
    if first == |member| || first == 0 then Err(InvalidMember)
    else
      var second := Find(member, BAR, first + 1);
      if second == |member| || second == first + 1 then Err(InvalidMember)
      else
        var s := Split(member[..first], member[first + 1..second], member[second + 1..]);
        if |s.tokenKey| != TOKEN_DIGITS || |s.timeKey| != REGISTERED_AT_WIDTH then Err(InvalidMember)
        else if !ValidUserId(s.user) then Err(InvalidUserId)
        else Ok(s)
  }

  datatype Decoded = Decoded(tokens: nat, nanos: int, user: Text)

  function DecodeMember(member: Text): Result<Decoded> {
    match SplitMember(member)
    case Err(e) => Err(e)
    case Ok(s) =>
      match DecodeToken(s.tokenKey)
      case Err(e) => Err(e)
      case Ok(tokens) =>
        if tokens >= UINT64 then Err(TokenOverflow)
        else match DecodeRegisteredAt(s.timeKey)
          case Err(e) => Err(e)
          case Ok(nanos) => Ok(Decoded(tokens, nanos, s.user))
  }

  lemma Uint64FitsToken(n: nat)
    requires n < UINT64
    ensures |Digits(n)| <= TOKEN_DIGITS
  {
    FitsToken(n);
  }

  lemma EncodeMemberOk(tokens: nat, nanos: int, user: Text)
    requires tokens < UINT64
    ensures EncodeMember(tokens, nanos, user).Ok? <==> ValidUserId(user) && Encodable(tokens, nanos)
  {
    Uint64FitsToken(tokens);
  }

  /** In plain numbers: a member is encoded exactly for a user id without separators and
      an instant from the epoch on, of at most sixteen digits of milliseconds. */
  lemma EncodesExactly(tokens: nat, nanos: int, user: Text)
    requires tokens < 0x1_0000_0000_0000_0000
    ensures EncodeMember(tokens, nanos, user).Ok? <==>
              user != [] && BAR !in user && TAB !in user && 0 <= nanos < 10_000_000_000_000_000 * 1_000_000
  {
    hide Digits;
    EncodeMemberOk(tokens, nanos, user);
    Pow10Values();
    if UnixMilli(nanos) >= 0 { DigitsFit(UnixMilli(nanos), REGISTERED_AT_WIDTH); }
  }

  /** The member text of encodable arguments. */
  function MemberText(tokens: nat, nanos: int, user: Text): (m: Text)
    requires ValidUserId(user) && Encodable(tokens, nanos)
    ensures EncodeMember(tokens, nanos, user) == Ok(m)
  {
    EncodeMemberOk(tokens, nanos, user);
    EncodeMember(tokens, nanos, user).value
  }

  function Joined(a: Text, b: Text, c: Text, sep: Byte): Text { a + [sep] + b + [sep] + c }

  /** Where the two separators of three joined fields are found. */
  lemma JoinedFields(a: Text, b: Text, c: Text, sep: Byte)
    requires sep !in a && sep !in b
    ensures var m := Joined(a, b, c, sep);
      && |m| == |a| + |b| + |c| + 2
      && Find(m, sep, 0) == |a| && Find(m, sep, |a| + 1) == |a| + 1 + |b|
      && m[..|a|] == a && m[|a| + 1..|a| + 1 + |b|] == b && m[|a| + 2 + |b|..] == c
  {
    var m := Joined(a, b, c, sep);
    var i, j := |a|, |a| + 1 + |b|;
    assert m[..i] == a && m[i + 1..j] == b && m[i] == sep && m[j] == sep;
    forall k | 0 <= k < i ensures m[k] != sep { assert m[k] == a[k]; }
    forall k | i + 1 <= k < j ensures m[k] != sep { assert m[k] == b[k - i - 1]; }
    FindUnique(m, sep, 0, i);
    FindUnique(m, sep, i + 1, j);
  }

  /** Splitting a member built from keys of the right widths gives the keys back. */
  lemma SplitJoined(tokenKey: Text, timeKey: Text, user: Text)
    requires |tokenKey| == TOKEN_DIGITS && |timeKey| == REGISTERED_AT_WIDTH && ValidUserId(user)
    requires BAR !in tokenKey && BAR !in timeKey
    ensures SplitMember(Joined(tokenKey, timeKey, user, BAR)) == Ok(Split(tokenKey, timeKey, user))
  {
    JoinedFields(tokenKey, timeKey, user, BAR);
  }

  lemma DigitsHaveNo(d: Text, c: Byte)
    requires AllDigits(d) && !IsDigit(c)
    ensures c !in d
  {
  }

  lemma ParsePadded(ms: nat)
    requires |Digits(ms)| <= REGISTERED_AT_WIDTH
    ensures ParseInt(Pad(ms, REGISTERED_AT_WIDTH)) == Some(ms)
  {
    var p := Pad(ms, REGISTERED_AT_WIDTH);
    PadValue(REGISTERED_AT_WIDTH - |Digits(ms)|, Digits(ms));
    assert IsDigit(p[0]);
    Pow10Values();
    ValueBound(p);
  }

  /** Decoding an encoded member gives back its arguments, the instant to the millisecond. */
  lemma MemberRoundTrip(tokens: nat, nanos: int, user: Text)
    requires ValidUserId(user) && Encodable(tokens, nanos)
    ensures DecodeMember(MemberText(tokens, nanos, user))
         == Ok(Decoded(tokens, UnixMilli(nanos) * 1_000_000, user))
  {
    Uint64FitsToken(tokens);
    TokenRoundTrip(tokens);
    var tokenKey := EncodeToken(tokens).value;
    var timeKey := EncodeRegisteredAt(nanos).value;
    DigitsHaveNo(tokenKey, BAR);
    DigitsHaveNo(timeKey, BAR);
    assert MemberText(tokens, nanos, user) == Joined(tokenKey, timeKey, user, BAR);
    SplitJoined(tokenKey, timeKey, user);
    ParsePadded(UnixMilli(nanos));
  }

  /** The converse holds exactly when the time key starts with a digit: ParseInt
      also accepts a leading sign, which no encoder writes (SignedTimeDecodes). */
  lemma MemberTextRoundTrip(m: Text)
    requires DecodeMember(m).Ok?
    ensures |m| > 31
    ensures var d := DecodeMember(m).value;
            EncodeMember(d.tokens, d.nanos, d.user) == Ok(m) <==> IsDigit(m[31])
  {
    var s := SplitMember(m).value;
    var d := DecodeMember(m).value;
    TokenTextRoundTrip(s.tokenKey);
    assert m == s.tokenKey + [BAR] + s.timeKey + [BAR] + s.user;
    assert m[31] == s.timeKey[0];
    var ms := ParseInt(s.timeKey).value;
    assert UnixMilli(d.nanos) == ms;
    if IsDigit(s.timeKey[0]) {
      ValueBound(s.timeKey);
      DigitsFit(ms, REGISTERED_AT_WIDTH);
      PadIsUnique(ms, s.timeKey);
    } else {
      var e := EncodeRegisteredAt(d.nanos);
      assert e.Ok? ==> (s.tokenKey + [BAR] + e.value + [BAR] + s.user)[31] == e.value[0];
    }
  }

  /** The texts in between: a plus sign before fifteen digits is read as the instant
      those digits give, so a second text decodes to what the encoder's text does. */
  lemma SignedTimeDecodes(tokens: nat, d: Text, user: Text)
    requires tokens < UINT64 && |d| == REGISTERED_AT_WIDTH - 1 && AllDigits(d) && ValidUserId(user)
    ensures |Digits(tokens)| <= TOKEN_DIGITS
    ensures var m := Joined(Complement(Pad(tokens, TOKEN_DIGITS)), [PLUS] + d, user, BAR);
            DecodeMember(m) == Ok(Decoded(tokens, Value(d) * 1_000_000, user))
            && EncodeMember(tokens, Value(d) * 1_000_000, user) != Ok(m)
  {
    Uint64FitsToken(tokens);
    TokenRoundTrip(tokens);
    SignedTime(d);
    var key, time := Complement(Pad(tokens, TOKEN_DIGITS)), [PLUS] + d;
    var m := Joined(key, time, user, BAR);
    DigitsHaveNo(key, BAR);
    SplitJoined(key, time, user);
    assert EncodeToken(tokens) == Ok(key);
    hide Digits, Value, Find, Pad, Complement, SplitMember, DecodeToken, DecodeRegisteredAt, EncodeToken;
    assert m[31] == PLUS;
    MemberTextRoundTrip(m);
  }

  lemma SignedTime(d: Text)
    requires |d| == REGISTERED_AT_WIDTH - 1 && AllDigits(d)
    ensures DecodeRegisteredAt([PLUS] + d) == Ok(Value(d) * 1_000_000) && BAR !in [PLUS] + d
  {
    DigitsHaveNo(d, BAR);
    assert ([PLUS] + d)[1..] == d;
    ValueBound(d);
    assert Pow10(15) * 10 == Pow10(16);
    Pow10Values();
  }

  /** Thirty nines, "+" and fifteen zeros, "a": no tokens at the epoch. */
  lemma SignedTimeExample()
    ensures var m := Joined(seq(30, _ => NINE), [PLUS] + Zeros(15), [97], BAR);
            DecodeMember(m) == Ok(Decoded(0, 0, [97])) && EncodeMember(0, 0, [97]) != Ok(m)
  {
    PadValue(15, []);
    assert Zeros(15) + [] == Zeros(15);
    assert |Digits(0)| == 1 && Digits(0)[0] == ZERO;
    assert Complement(Pad(0, TOKEN_DIGITS)) == seq(30, _ => NINE);
    SignedTimeDecodes(0, Zeros(15), [97]);
  }

  lemma MemberShape(tokens: nat, nanos: int, user: Text)
    requires ValidUserId(user) && Encodable(tokens, nanos)
    ensures |Digits(tokens)| <= TOKEN_DIGITS
    ensures MemberText(tokens, nanos, user) == Complement(Pad(tokens, TOKEN_DIGITS)) + [BAR]
              + Pad(UnixMilli(nanos), REGISTERED_AT_WIDTH) + [BAR] + user
  {
    Uint64FitsToken(tokens);
  }

  /** Complemented keys sort by more tokens first. */
  lemma TokenOrder(a: nat, b: nat)
    requires |Digits(a)| <= TOKEN_DIGITS && |Digits(b)| <= TOKEN_DIGITS
    ensures Less(Complement(Pad(a, TOKEN_DIGITS)), Complement(Pad(b, TOKEN_DIGITS))) <==> a > b
    ensures Complement(Pad(a, TOKEN_DIGITS)) == Complement(Pad(b, TOKEN_DIGITS)) <==> a == b
  {
    hide Digits, Pad, Complement, Less, Value;
    var p, q := Pad(a, TOKEN_DIGITS), Pad(b, TOKEN_DIGITS);
    PadOrder(b, a, TOKEN_DIGITS);
    ComplementReverses(p, q);
    assert Complement(Complement(p)) == p;
    assert Complement(Complement(q)) == q;
  }

  /** Byte order of members: tokens descending, then registration, then user id. */
  lemma MemberOrder(t1: nat, n1: int, u1: Text, t2: nat, n2: int, u2: Text)
    requires ValidUserId(u1) && ValidUserId(u2) && Encodable(t1, n1) && Encodable(t2, n2)
    ensures Less(MemberText(t1, n1, u1), MemberText(t2, n2, u2)) <==>
              || t1 > t2
              || (t1 == t2 && UnixMilli(n1) < UnixMilli(n2))
              || (t1 == t2 && UnixMilli(n1) == UnixMilli(n2) && Less(u1, u2))
  {
    MemberShape(t1, n1, u1);
    MemberShape(t2, n2, u2);
    TokenOrder(t1, t2);
    PadOrder(UnixMilli(n1), UnixMilli(n2), REGISTERED_AT_WIDTH);
    JoinedOrder(Complement(Pad(t1, TOKEN_DIGITS)), Pad(UnixMilli(n1), REGISTERED_AT_WIDTH), u1,
                Complement(Pad(t2, TOKEN_DIGITS)), Pad(UnixMilli(n2), REGISTERED_AT_WIDTH), u2);
  }

  /** Three separated fields, the first two of fixed width, compare field by field. */
  lemma JoinedOrder(a1: Text, b1: Text, u1: Text, a2: Text, b2: Text, u2: Text)
    requires |a1| == |a2| && |b1| == |b2|
    ensures Less(a1 + [BAR] + b1 + [BAR] + u1, a2 + [BAR] + b2 + [BAR] + u2) <==>
              || Less(a1, a2)
              || (a1 == a2 && Less(b1, b2))
              || (a1 == a2 && b1 == b2 && Less(u1, u2))
  {
    var x1, x2 := b1 + [BAR] + u1, b2 + [BAR] + u2;
    SeparatedOrder(b1, u1, b2, u2);
    SeparatedOrder(a1, x1, a2, x2);
    assert a1 + [BAR] + b1 + [BAR] + u1 == a1 + [BAR] + x1;
    assert a2 + [BAR] + b2 + [BAR] + u2 == a2 + [BAR] + x2;
  }

  lemma SeparatedOrder(a: Text, x: Text, b: Text, y: Text)
    requires |a| == |b|
    ensures Less(a + [BAR] + x, b + [BAR] + y) <==> (Less(a, b) || (a == b && Less(x, y)))
  {
    LessSameHead([BAR], x, y);
    LessConcat(a, [BAR] + x, b, [BAR] + y);
    assert a + [BAR] + x == a + ([BAR] + x) && b + [BAR] + y == b + ([BAR] + y);
  }

  lemma LessSameHead(h: Text, x: Text, y: Text)
    ensures Less(h + x, h + y) <==> Less(x, y)
  {
    LessConcat(h, x, h, y);
    LessIrreflexive(h);
  }

  // ----- member_user ------------------------------------------------------

  /** The text after the last separator, or the whole text. */
  function LastField(m: Text): Text {
    if BAR !in m then m else LastField(m[Find(m, BAR, 0) + 1..])
  }

  lemma LastFieldSkips(m: Text, start: nat)
    requires start <= |m| && Find(m, BAR, start) < |m|
    ensures LastField(m[start..]) == LastField(m[Find(m, BAR, start) + 1..])
  {
    hide Find;
    var p := Find(m, BAR, start);
    var rest := m[start..];
    assert rest[p - start] == BAR;
    FindUnique(rest, BAR, 0, p - start);
    assert rest[p - start + 1..] == m[p + 1..];
  }

  lemma LastFieldEnds(m: Text, start: nat)
    requires start <= |m| && Find(m, BAR, start) == |m|
    ensures LastField(m[start..]) == m[start..]
  {
    assert BAR !in m[start..];
  }

  /** The scripts' separator scan. */
  method MemberUser(member: Text) returns (user: Text)
    ensures user == LastField(member)
  {
    hide LastField, Find;
    var last: int, start: nat := -1, 0;
    assert member[0..] == member;
    while true
      invariant 0 <= start <= |member| && last == start - 1
      invariant LastField(member[start..]) == LastField(member)
      decreases |member| - start
    {
      var p := Find(member, BAR, start);
      if p == |member| {
        LastFieldEnds(member, start);
        break;
      }
      LastFieldSkips(member, start);
      last := p;
      start := p + 1;
    }
    user := if last < 0 then member else member[last + 1..];
  }

  /** The last field of three joined ones is the third. */
  lemma LastFieldJoined(a: Text, b: Text, c: Text)
    requires BAR !in a && BAR !in b && BAR !in c
    ensures LastField(Joined(a, b, c, BAR)) == c
  {
    hide Find, LastField, Joined;
    var m := Joined(a, b, c, BAR);
    JoinedFields(a, b, c, BAR);
    assert m[0..] == m;
    LastFieldSkips(m, 0);
    LastFieldSkips(m, |a| + 1);
    assert |a| + 1 + |b| + 1 == |a| + 2 + |b|;
    LastFieldOfOne(c);
  }

  lemma LastFieldOfOne(m: Text)
    requires BAR !in m
    ensures LastField(m) == m
  {
  }

  /** What splitMember accepts is its three keys joined. */
  lemma SplitIsJoined(m: Text)
    requires SplitMember(m).Ok?
    ensures var s := SplitMember(m).value;
      && m == Joined(s.tokenKey, s.timeKey, s.user, BAR)
      && BAR !in s.tokenKey && BAR !in s.timeKey && BAR !in s.user
  {
    hide Find;
    var i := Find(m, BAR, 0);
    var j := Find(m, BAR, i + 1);
    assert m == m[..i] + [BAR] + m[i + 1..j] + [BAR] + m[j + 1..];
  }

  /** Lua's last-separator user agrees with Go's splitMember wherever that accepts. */
  lemma LuaUserAgrees(m: Text)
    requires SplitMember(m).Ok?
    ensures LastField(m) == SplitMember(m).value.user
  {
    hide SplitMember, LastField, Joined;
    SplitIsJoined(m);
    var s := SplitMember(m).value;
    LastFieldJoined(s.tokenKey, s.timeKey, s.user);
  }

  // ----- user payloads ----------------------------------------------------

  function EncodePayload(revision: nat, tokens: nat, member: Text): Text {
    Joined(Digits(revision), Digits(tokens), member, TAB)
  }

  datatype Fields = Fields(revision: Text, tokens: Text, member: Text)

  /** The scripts' parse_payload: three raw fields, or nothing without two tabs. */
  function LuaPayload(payload: Text): Option<Fields> {
    var t1 := Find(payload, TAB, 0);
    if t1 == |payload| then None
    else
      var t2 := Find(payload, TAB, t1 + 1);
      if t2 == |payload| then None
      else Some(Fields(payload[..t1], payload[t1 + 1..t2], payload[t2 + 1..]))
  }

  datatype Payload = Payload(revision: nat, tokens: nat, member: Text)

  function ParseUserPayload(payload: Text): Result<Payload> {
    var first := Find(payload, TAB, 0);
    if first == |payload| || first == 0 then Err(InvalidMember)
    else
      var second := Find(payload, TAB, first + 1);
      if second == |payload| then Err(InvalidMember)
      else
        match ParseUint(payload[..first])
        case None => Err(InvalidMember)
        case Some(revision) =>
          match ParseUint(payload[first + 1..second])
          case None => Err(InvalidMember)
          case Some(tokens) =>
            var member := payload[second + 1..];
            if member == [] then Err(InvalidMember) else Ok(Payload(revision, tokens, member))
  }

  lemma LuaPayloadJoined(a: Text, b: Text, c: Text)
    requires TAB !in a && TAB !in b
    ensures LuaPayload(Joined(a, b, c, TAB)) == Some(Fields(a, b, c))
  {
    hide Find, Joined;
    JoinedFields(a, b, c, TAB);
    var m := Joined(a, b, c, TAB);
    assert |a| + 1 + |b| + 1 == |a| + 2 + |b|;
    assert m[|a| + 1 + |b| + 1..] == c;
  }

  lemma LuaPayloadOfEncoded(revision: nat, tokens: nat, member: Text)
    ensures LuaPayload(EncodePayload(revision, tokens, member))
         == Some(Fields(Digits(revision), Digits(tokens), member))
  {
    DigitsHaveNo(Digits(revision), TAB);
    DigitsHaveNo(Digits(tokens), TAB);
    hide Digits, LuaPayload, Joined;
    LuaPayloadJoined(Digits(revision), Digits(tokens), member);
  }

  /** Parsing an encoded payload gives back its arguments. */
  lemma PayloadRoundTrip(revision: nat, tokens: nat, member: Text)
    requires revision < UINT64 && tokens < UINT64 && member != []
    ensures ParseUserPayload(EncodePayload(revision, tokens, member)) == Ok(Payload(revision, tokens, member))
  {
    LuaPayloadOfEncoded(revision, tokens, member);
  }

  /** Where Go accepts a payload, Lua's raw fields denote Go's values. */
  lemma LuaPayloadAgrees(p: Text)
    requires ParseUserPayload(p).Ok?
    ensures LuaPayload(p).Some?
    ensures var f, g := LuaPayload(p).value, ParseUserPayload(p).value;
            && AllDigits(f.revision) && Value(f.revision) == g.revision
            && AllDigits(f.tokens) && Value(f.tokens) == g.tokens
            && f.member == g.member
  {
    var first := Find(p, TAB, 0);
    var second := Find(p, TAB, first + 1);
    assert ParseUint(p[..first]).Some? && ParseUint(p[first + 1..second]).Some?;
  }

  /** Neither empty nor led by a zero that it could do without. */
  predicate NoLeadingZero(d: Text) { d != [] && (d[0] == ZERO ==> |d| == 1) }

  /** Such digits are the formatted form of their value. */
  lemma DigitsOfValue(d: Text)
    requires AllDigits(d)
    ensures Digits(Value(d)) == d <==> NoLeadingZero(d)
  {
    var e := Digits(Value(d));
    assert e[0] == ZERO ==> Value(d) == 0 && |Digits(0)| == 1;
    if NoLeadingZero(d) {
      hide Digits, Value;
      if |d| > |e| { LongerIsLarger(d, e); }
      if |e| > |d| { LongerIsLarger(e, d); }
      SameWidthOrder(d, e);
    }
  }

  /** The converse: an accepted payload is the encoding of what it parses to exactly
      when neither number is written with a needless leading zero. */
  lemma PayloadTextRoundTrip(p: Text)
    requires ParseUserPayload(p).Ok?
    ensures LuaPayload(p).Some?
    ensures var f, g := LuaPayload(p).value, ParseUserPayload(p).value;
            EncodePayload(g.revision, g.tokens, g.member) == p
            <==> NoLeadingZero(f.revision) && NoLeadingZero(f.tokens)
  {
    hide Digits, Value, Find, ParseUserPayload, LuaPayload, Joined, NoLeadingZero;
    LuaPayloadAgrees(p);
    LuaPayloadIsJoined(p);
    var f, g := LuaPayload(p).value, ParseUserPayload(p).value;
    DigitsOfValue(f.revision);
    DigitsOfValue(f.tokens);
    DigitsHaveNo(Digits(g.revision), TAB);
    DigitsHaveNo(Digits(g.tokens), TAB);
    JoinedInjective(Digits(g.revision), Digits(g.tokens), g.member, f.revision, f.tokens, f.member);
  }

  lemma LuaPayloadIsJoined(p: Text)
    requires LuaPayload(p).Some?
    ensures var f := LuaPayload(p).value;
            p == Joined(f.revision, f.tokens, f.member, TAB) && TAB !in f.revision && TAB !in f.tokens
  {
    hide Find;
    var i := Find(p, TAB, 0);
    var j := Find(p, TAB, i + 1);
    assert p == p[..i] + [TAB] + p[i + 1..j] + [TAB] + p[j + 1..];
  }

  lemma JoinedInjective(a: Text, b: Text, c: Text, x: Text, y: Text, z: Text)
    requires TAB !in a && TAB !in b && TAB !in x && TAB !in y
    ensures Joined(a, b, c, TAB) == Joined(x, y, z, TAB) <==> a == x && b == y && c == z
  {
    hide LuaPayload, Joined;
    LuaPayloadJoined(a, b, c);
    LuaPayloadJoined(x, y, z);
  }

  /** "07", "0", "a": accepted, and encoded again as another text. */
  lemma PaddedPayload()
    ensures var p := Joined([ZERO, 55], [ZERO], [97], TAB);
            ParseUserPayload(p) == Ok(Payload(7, 0, [97])) && EncodePayload(7, 0, [97]) != p
  {
    var a, b, c: Text := [ZERO, 55], [ZERO], [97];
    var p := Joined(a, b, c, TAB);
    JoinedFields(a, b, c, TAB);
    assert |a| + 1 + |b| + 1 == |a| + 2 + |b|;
    assert a[..1] == [ZERO] && a[..1][..0] == [] && b[..0] == [];
    assert Value(a) == 7 && Value(b) == 0;
    hide Find, Joined;
    assert p[..2] == a && p[3..4] == b && p[5..] == c;
    LuaPayloadJoined(a, b, c);
    PayloadTextRoundTrip(p);
  }

  // ----- version marks ----------------------------------------------------

  /** "<revision>" for a live user, "<revision>|D" for a tombstone. */
  function VersionText(revision: nat, gone: bool): Text {
    Digits(revision) + (if gone then [BAR, DEL] else [])
  }

  /** string.find(raw, '|D', 1, true): the first index of the mark, or |s|. */
  function FindMark(s: Text, from: nat): (i: nat)
    requires from <= |s|
    ensures from <= i <= |s|
    decreases |s| - from
  {
    if from == |s| then from
    else if s[from] == BAR && from + 1 < |s| && s[from + 1] == DEL then from
    else FindMark(s, from + 1)
  }

  function ParseVer(raw: Text): (Text, bool) {
    var d := FindMark(raw, 0);
    if d < |raw| then (raw[..d], true) else (raw, false)
  }

  lemma {:induction false} FindMarkAfterDigits(d: Text, gone: bool, from: nat)
    requires AllDigits(d) && from <= |d|
    ensures FindMark(d + (if gone then [BAR, DEL] else []), from) == |d|
    decreases |d| - from
  {
    var s := d + (if gone then [BAR, DEL] else []);
    if from < |d| {
      assert s[from] == d[from];
      FindMarkAfterDigits(d, gone, from + 1);
    }
  }

  lemma VersionRoundTrip(revision: nat, gone: bool)
    ensures ParseVer(VersionText(revision, gone)) == (Digits(revision), gone)
  {
    var d := Digits(revision);
    FindMarkAfterDigits(d, gone, 0);
    assert VersionText(revision, gone)[..|d|] == d;
    assert !gone ==> VersionText(revision, gone) == d;
  }
}
