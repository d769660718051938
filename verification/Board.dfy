/** One generation's board: what a user's latest accepted update is, how boards
    merge updates, and the standing they induce. */
module Board {
  import opened Bytes
  import opened Decimal
  import opened Encode

  datatype Entry = Live(rev: nat, tokens: nat, ms: nat) | Gone(rev: nat)

  type Users = map<Text, Entry>

  predicate ValidEntry(e: Entry) {
    e.rev < UINT64 && (e.Live? ==> Encodable(e.tokens, e.ms * 1_000_000))
  }

  predicate ValidUpdate(u: Text, e: Entry) { ValidUserId(u) && ValidEntry(e) }

  predicate ValidBoard(b: Users) { forall u :: u in b ==> ValidUpdate(u, b[u]) }

  predicate IsLive(b: Users, u: Text) { u in b && b[u].Live? }

  /** The sorted-set member of a live user. */
  function MemberOf(u: Text, e: Entry): Text
    requires ValidUpdate(u, e) && e.Live?
  {
    MemberText(e.tokens, e.ms * 1_000_000, u)
  }

  function Members(b: Users): set<Text>
    requires ValidBoard(b)
  {
    set u | u in b && b[u].Live? :: MemberOf(u, b[u])
  }

  // ----- merging ----------------------------------------------------------

  /** The update that survives: the higher revision, a removal on a tie. */
  predicate Beats(a: Entry, b: Entry) {
    a.rev > b.rev || (a.rev == b.rev && a.Gone? && b.Live?)
  }

  function Merge(b: Users, u: Text, e: Entry): Users {
    if u in b && !Beats(e, b[u]) then b else b[u := e]
  }

  // ----- standing ---------------------------------------------------------

  /** v is ahead of u: more tokens, then registered earlier, then smaller id. */
  predicate Ahead(b: Users, v: Text, u: Text)
    requires IsLive(b, u) && IsLive(b, v)
  {
    || b[v].tokens > b[u].tokens
    || (b[v].tokens == b[u].tokens && b[v].ms < b[u].ms)
    || (b[v].tokens == b[u].tokens && b[v].ms == b[u].ms && Less(v, u))
  }

  function AheadOf(b: Users, u: Text): set<Text>
    requires IsLive(b, u)
  {
    set v | v in b && IsLive(b, v) && Ahead(b, v, u)
  }

  /** One plus the number of live users ahead. */
  function Rank(b: Users, u: Text): nat
    requires IsLive(b, u)
  {
    1 + |AheadOf(b, u)|
  }

  /** Rank in the previous generation's board, 0 when the user has none there. */
  function PrevRank(prev: Users, u: Text): nat {
    if IsLive(prev, u) then Rank(prev, u) else 0
  }

  /** The live users in board order. */
  function Standing(b: Users): (s: seq<Text>)
    requires ValidBoard(b)
    ensures |s| == |Members(b)|
  {
    seq(|Members(b)|, i requires 0 <= i < |Members(b)| => LastField(Ordered(Members(b))[i]))
  }

  lemma MemberUserIs(u: Text, e: Entry)
    requires ValidUpdate(u, e) && e.Live?
    ensures LastField(MemberOf(u, e)) == u
    ensures DecodeMember(MemberOf(u, e)) == Ok(Decoded(e.tokens, e.ms * 1_000_000, u))
  {
    MemberRoundTrip(e.tokens, e.ms * 1_000_000, u);
    LuaUserAgrees(MemberOf(u, e));
  }

  lemma MemberInjective(u: Text, e: Entry, v: Text, f: Entry)
    requires ValidUpdate(u, e) && e.Live? && ValidUpdate(v, f) && f.Live?
    requires MemberOf(u, e) == MemberOf(v, f)
    ensures u == v && e.tokens == f.tokens && e.ms == f.ms
  {
    MemberUserIs(u, e);
    MemberUserIs(v, f);
  }

  /** Byte order of members is the Ahead order of their users. */
  lemma MemberOrderIsAhead(b: Users, v: Text, u: Text)
    requires ValidBoard(b) && IsLive(b, u) && IsLive(b, v)
    ensures Less(MemberOf(v, b[v]), MemberOf(u, b[u])) <==> Ahead(b, v, u)
  {
    MemberOrder(b[v].tokens, b[v].ms * 1_000_000, v, b[u].tokens, b[u].ms * 1_000_000, u);
  }

  lemma {:induction false} SameSize(s: set<Text>, t: set<Text>, f: map<Text, Text>)
    requires f.Keys == s && (forall x :: x in s ==> f[x] in t)
    requires forall x, y :: x in s && y in s && f[x] == f[y] ==> x == y
    requires forall y :: y in t ==> exists x :: x in s && f[x] == y
    ensures |s| == |t|
    decreases |s|
  {
    if s == {} {
      assert t == {};
    } else {
      var x :| x in s;
      var s', t' := s - {x}, t - {f[x]};
      var f' := map y | y in s' :: f[y];
      forall y | y in t' ensures exists z :: z in s' && f'[z] == y {
        var z :| z in s && f[z] == y;
        assert z in s' && f'[z] == y;
      }
      SameSize(s', t', f');
    }
  }

  /** ZRANK of a user's member counts exactly the users ahead of it. */
  lemma RankIsRedisRank(b: Users, u: Text)
    requires ValidBoard(b) && IsLive(b, u)
    ensures MemberOf(u, b[u]) in Members(b)
    ensures Rank(b, u) == 1 + RankOf(Members(b), MemberOf(u, b[u]))
  {
    var m := MemberOf(u, b[u]);
    var s, t := AheadOf(b, u), Below(Members(b), m);
    var f := map v | v in s :: MemberOf(v, b[v]);
    forall v | v in s ensures f[v] in t { MemberOrderIsAhead(b, v, u); }
    forall v, w | v in s && w in s && f[v] == f[w] ensures v == w { MemberInjective(v, b[v], w, b[w]); }
    forall y | y in t ensures exists v :: v in s && f[v] == y {
      var v :| v in b && b[v].Live? && MemberOf(v, b[v]) == y;
      MemberOrderIsAhead(b, v, u);
      assert v in s && f[v] == y;
    }
    SameSize(s, t, f);
  }

  /** The i-th user of the standing is live and has rank i + 1. */
  lemma StandingRank(b: Users, i: nat)
    requires ValidBoard(b) && i < |Members(b)|
    ensures IsLive(b, Standing(b)[i]) && Rank(b, Standing(b)[i]) == i + 1
    ensures Ordered(Members(b))[i] == MemberOf(Standing(b)[i], b[Standing(b)[i]])
  {
    var x := Ordered(Members(b))[i];
    assert x in Ordered(Members(b));
    assert x in Members(b);
    var u :| u in b && b[u].Live? && MemberOf(u, b[u]) == x;
    MemberUserIs(u, b[u]);
    RankIsRedisRank(b, u);
    RankOfOrdered(Members(b), i);
  }

  /** Every live user stands exactly at its rank. */
  lemma StandingAtRank(b: Users, u: Text)
    requires ValidBoard(b) && IsLive(b, u)
    ensures Rank(b, u) <= |Members(b)| && Standing(b)[Rank(b, u) - 1] == u
  {
    RankIsRedisRank(b, u);
    OrderedAtRank(Members(b), MemberOf(u, b[u]));
    MemberUserIs(u, b[u]);
  }

  // ----- published rows ---------------------------------------------------

  datatype Row = Row(user: Text, tokens: nat, prevRank: nat)

  function RowFor(b: Users, prev: Users, u: Text): Row {
    Row(u, if IsLive(b, u) then b[u].tokens else 0, PrevRank(prev, u))
  }

  /** All rows of a board in standing order. */
  function BoardRows(b: Users, prev: Users): (r: seq<Row>)
    requires ValidBoard(b)
    ensures |r| == |Members(b)|
  {
    seq(|Members(b)|, i requires 0 <= i < |Members(b)| => RowFor(b, prev, Standing(b)[i]))
  }

  function Take<T>(s: seq<T>, n: nat): seq<T> { if |s| <= n then s else s[..n] }

  /** The live users and the members are equally many: one member per user. */
  lemma OneMemberPerUser(b: Users)
    requires ValidBoard(b)
    ensures |Members(b)| == |set u | u in b && b[u].Live?|
  {
    var s := set u | u in b && b[u].Live?;
    var f := map u | u in s :: MemberOf(u, b[u]);
    forall v, w | v in s && w in s && f[v] == f[w] ensures v == w { MemberInjective(v, b[v], w, b[w]); }
    forall y | y in Members(b) ensures exists v :: v in s && f[v] == y {
      var v :| v in b && b[v].Live? && MemberOf(v, b[v]) == y;
      assert v in s && f[v] == y;
    }
    SameSize(s, Members(b), f);
  }
}
