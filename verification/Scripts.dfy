/** The Redis keys of one window and the Lua scripts that work on them, as texts.
    Each script is proved to be the corresponding step of the window model. */
module Scripts {
  import opened Bytes
  import opened Decimal
  import opened Encode
  import opened Board
  import opened Window

  // ----- how a generation is stored -----------------------------------------

  /** The keys g:<generation>:all, :users, :versions and the revision of :meta. */
  datatype Keys = Keys(all: set<Text>, users: map<Text, Text>, versions: map<Text, Text>, revision: nat)

  const NO_KEYS := Keys({}, map[], map[], 0)

  function PayloadOf(u: Text, e: Entry): Text
    requires ValidUpdate(u, e) && e.Live?
  {
    EncodePayload(e.rev, e.tokens, MemberOf(u, e))
  }

  /** Every stored structure is a function of the board: the sorted set is the set
      of stored members, and a user is tombstoned when versioned but not stored. */
  function Stored(g: Generation): Keys
    requires ValidBoard(g.board)
  {
    Keys(Members(g.board), StoredUsers(g.board), StoredVersions(g.board), g.revision)
  }

  function StoredUsers(b: Users): map<Text, Text>
    requires ValidBoard(b)
  {
    map u | u in b && b[u].Live? :: PayloadOf(u, b[u])
  }

  function StoredVersions(b: Users): map<Text, Text> {
    map u | u in b :: VersionText(b[u].rev, b[u].Gone?)
  }

  function RowText(r: Row): Text {
    r.user + [TAB] + Digits(r.tokens) + [TAB] + (if r.prevRank == 0 then [] else Digits(r.prevRank))
  }

  function RowTexts(rows: seq<Row>): (t: seq<Text>)
    ensures |t| == |rows|
    ensures forall i :: 0 <= i < |rows| ==> t[i] == RowText(rows[i])
  {
    seq(|rows|, i requires 0 <= i < |rows| => RowText(rows[i]))
  }

  datatype HotMeta = HotMeta(generation: Text, revision: Text, participants: Text, fence: Text)

  function MetaOf(sn: Snapshot): HotMeta {
    HotMeta(sn.gen, Digits(sn.rev), Digits(sn.participants), Digits(sn.fence))
  }

  // ----- reading stored users -----------------------------------------------

  /** HGET users uid, then the third payload field. */
  function StoredMember(users: map<Text, Text>, uid: Text): Option<Text> {
    if uid !in users then None
    else match LuaPayload(users[uid])
      case None => None
      case Some(f) => Some(f.member)
  }

  function StoredTokens(users: map<Text, Text>, uid: Text): Text {
    if uid !in users then [ZERO]
    else match LuaPayload(users[uid])
      case None => [ZERO]
      case Some(f) => f.tokens
  }

  /** prev_rank_for: '' without a stored member, else its ZRANK plus one. */
  function StoredRank(k: Keys, uid: Text): Text {
    match StoredMember(k.users, uid)
    case None => []
    case Some(m) => if m !in k.all then [] else Digits(RankOf(k.all, m) + 1)
  }

  lemma StoredUser(g: Generation, uid: Text)
    requires ValidBoard(g.board)
    ensures var k := Stored(g);
      && StoredMember(k.users, uid) == (if IsLive(g.board, uid) then Some(MemberOf(uid, g.board[uid])) else None)
      && StoredTokens(k.users, uid) == Digits(if IsLive(g.board, uid) then g.board[uid].tokens else 0)
      && StoredRank(k, uid) == (if IsLive(g.board, uid) then Digits(Rank(g.board, uid)) else [])
  {
    if IsLive(g.board, uid) {
      var e := g.board[uid];
      LuaPayloadOfEncoded(e.rev, e.tokens, MemberOf(uid, e));
      RankIsRedisRank(g.board, uid);
    }
  }

  /** The row a script builds for a user is the text of the model's row. */
  lemma StoredRow(g: Generation, prev: Generation, uid: Text)
    requires ValidBoard(g.board) && ValidBoard(prev.board)
    ensures uid + [TAB] + StoredTokens(Stored(g).users, uid) + [TAB] + StoredRank(Stored(prev), uid)
         == RowText(RowFor(g.board, prev.board, uid))
  {
    StoredUser(g, uid);
    StoredUser(prev, uid);
  }

  lemma StoredMembers(g: Generation, i: nat)
    requires ValidBoard(g.board) && i < |Stored(g).all|
    ensures LastField(Ordered(Stored(g).all)[i]) == Standing(g.board)[i]
  {
  }

  // ----- updating stored users ------------------------------------------------

  lemma MembersUpdated(b: Users, u: Text, e: Entry)
    requires ValidBoard(b) && ValidUpdate(u, e)
    ensures ValidBoard(b[u := e])
    ensures Members(b[u := e]) ==
      (if IsLive(b, u) then Members(b) - {MemberOf(u, b[u])} else Members(b)) +
      (if e.Live? then {MemberOf(u, e)} else {})
  {
    hide MemberText;
    var b' := b[u := e];
    var rest := if IsLive(b, u) then Members(b) - {MemberOf(u, b[u])} else Members(b);
    forall x | x in rest ensures x in Members(b') {
      var v :| v in b && b[v].Live? && MemberOf(v, b[v]) == x;
      assert v != u;
      assert v in b' && b'[v] == b[v];
    }
    if e.Live? { assert u in b' && b'[u] == e; }
    forall x | x in Members(b') ensures x in rest || (e.Live? && x == MemberOf(u, e)) {
      var v :| v in b' && b'[v].Live? && MemberOf(v, b'[v]) == x;
      if v != u && IsLive(b, u) && x == MemberOf(u, b[u]) { MemberInjective(v, b[v], u, b[u]); }
    }
  }

  /** The keys after the script's writes. */
  function Rewritten(k: Keys, user: Text, gone: Option<Text>, payload: Option<Text>, member: Text,
          version: Text): Keys {
    var all := if gone.Some? then k.all - {gone.value} else k.all;
    Keys(if payload.Some? then all + {member} else all,
         if payload.Some? then k.users[user := payload.value] else k.users - {user},
         k.versions[user := version], k.revision + 1)
  }

  lemma UsersUpdated(b: Users, u: Text, e: Entry)
    requires ValidBoard(b) && ValidUpdate(u, e)
    ensures ValidBoard(b[u := e])
    ensures StoredUsers(b[u := e]) ==
      if e.Live? then StoredUsers(b)[u := PayloadOf(u, e)] else StoredUsers(b) - {u}
  {
    hide PayloadOf;
    var m := StoredUsers(b[u := e]);
    var n := if e.Live? then StoredUsers(b)[u := PayloadOf(u, e)] else StoredUsers(b) - {u};
    assert m.Keys == n.Keys;
    forall v | v in m ensures m[v] == n[v] {
      if v == u { assert m[v] == PayloadOf(u, e); } else { assert m[v] == PayloadOf(v, b[v]) == n[v]; }
    }
  }

  lemma VersionsUpdated(b: Users, u: Text, e: Entry)
    ensures StoredVersions(b[u := e]) == StoredVersions(b)[u := VersionText(e.rev, e.Gone?)]
  {
  }

  lemma StoredUpdated(g: Generation, u: Text, e: Entry)
    requires ValidBoard(g.board) && ValidUpdate(u, e)
    ensures ValidBoard(g.board[u := e])
    ensures Stored(Generation(g.board[u := e], g.revision + 1)) ==
      Rewritten(Stored(g), u,
                if IsLive(g.board, u) then Some(MemberOf(u, g.board[u])) else None,
                if e.Live? then Some(PayloadOf(u, e)) else None,
                if e.Live? then MemberOf(u, e) else [], VersionText(e.rev, e.Gone?))
  {
    MembersUpdated(g.board, u, e);
    UsersUpdated(g.board, u, e);
    VersionsUpdated(g.board, u, e);
    hide MemberOf, PayloadOf, Members, StoredUsers, StoredVersions, ValidBoard;
  }

  // ----- replies ----------------------------------------------------------------

  datatype Status = SApplied | SDuplicate | SStale | SSkipped

  function ReplyText(r: Reply): (Status, Text) {
    match r
    case SkippedGeneration(g) => (SSkipped, g)
    case Stale(rev) => (SStale, Digits(rev))
    case Duplicate(rev) => (SDuplicate, Digits(rev))
    case Applied(rev) => (SApplied, Digits(rev))
  }

  datatype CaptureTexts = CaptureTexts(gen: Text, rev: Text, count: Text, rows: seq<Text>)

  function CaptureText(c: Capture): CaptureTexts {
    CaptureTexts(c.gen, Digits(c.rev), Digits(c.participants), RowTexts(c.rows))
  }

  datatype PageTexts = MissTexts
                     | PageTexts(view: View, id: Text, gen: Text, rev: Text, count: Text,
                                 ownRank: Text, ownTokens: Text, rows: seq<Text>)

  function OwnRankText(own: Own): Text { if own.Own? then Digits(own.rank) else [] }

  function OwnTokensText(own: Own): Text { if own.Own? then Digits(own.tokens) else [] }

  function PageText(p: Page): PageTexts {
    match p
    case Miss => MissTexts
    case Page(view, id, gen, rev, participants, own, rows) =>
      PageTexts(view, id, gen, Digits(rev), Digits(participants),
                OwnRankText(own), OwnTokensText(own), RowTexts(rows))
  }

  lemma DigitsInjective(a: nat, b: nat)
    ensures Digits(a) == Digits(b) <==> a == b
  {
  }

  lemma RevCmpDigits(a: nat, b: nat)
    ensures RevCmp(Digits(a), Digits(b)) == Sign(a - b)
  {
    RevCmpIsNumeric(Digits(a), Digits(b));
  }

  /** The version check of the apply script: why an update is refused, if it is. */
  function Refusal(versions: map<Text, Text>, user: Text, revision: Text, remove: bool): Option<(Status, Text)> {
    if user !in versions then None
    else
      var (oldRev, tombstoned) := ParseVer(versions[user]);
      if RevCmp(revision, oldRev) < 0 then Some((SStale, oldRev))
      else if RevCmp(revision, oldRev) == 0 then
        if remove then (if tombstoned then Some((SDuplicate, oldRev)) else None)
        else Some((if tombstoned then SStale else SDuplicate, oldRev))
      else None
  }

  lemma RefusalIs(w: Window, g: Text, user: Text, e: Entry)
    requires Consistent(w) && !(w.current != [] && Less(g, w.current))
    ensures var r := ApplyStep(w, g, user, e).1;
            Refusal(Stored(At(w, g)).versions, user, Digits(e.rev), e.Gone?)
            == (if r.Applied? then None else Some(ReplyText(r)))
  {
    var b := At(w, g).board;
    if user in b {
      VersionRoundTrip(b[user].rev, b[user].Gone?);
      RevCmpDigits(e.rev, b[user].rev);
    }
  }

  /** Missing keys read as empty structures. */
  function Lookup(gens: map<Text, Keys>, g: Text): Keys {
    if g in gens then gens[g] else NO_KEYS
  }

  ghost predicate Mirrors(gens: map<Text, Keys>, w: Window)
    requires Consistent(w)
  {
    forall g {:trigger Lookup(gens, g)} :: Lookup(gens, g) == Stored(At(w, g))
  }

  /** An empty list has no key. */
  function RowsAt(rows: map<Text, seq<Text>>, id: Text): seq<Text> { if id in rows then rows[id] else [] }

  ghost predicate HotMirrors(meta: map<Text, HotMeta>, rows: map<Text, seq<Text>>, snaps: map<Text, Snapshot>) {
    && meta.Keys == snaps.Keys && [] !in snaps
    && (forall id :: id in snaps ==> StoredSnapshot(meta[id], RowsAt(rows, id), snaps[id]))
  }

  predicate StoredSnapshot(meta: HotMeta, rows: seq<Text>, sn: Snapshot) {
    meta == MetaOf(sn) && rows == RowTexts(sn.rows)
  }

  lemma MirrorsSame(gens: map<Text, Keys>, w: Window, w': Window)
    requires Consistent(w) && Consistent(w') && Mirrors(gens, w) && w'.gens == w.gens
    ensures Mirrors(gens, w')
  {
    forall g ensures Lookup(gens, g) == Stored(At(w', g)) { assert At(w', g) == At(w, g); }
  }

  lemma KeysValid(gens: map<Text, Keys>, w: Window, g: Text)
    requires Consistent(w) && Mirrors(gens, w)
    ensures ValidBoard(At(w, g).board) && Lookup(gens, g) == Stored(At(w, g))
    ensures Lookup(gens, g).revision == At(w, g).revision
  {
  }

  function SnapshotFrom(c: Capture, fence: nat): Snapshot {
    Snapshot(c.gen, c.rev, c.participants, c.rows, fence)
  }

  /** The two keys after the snapshot transaction. */
  function MetaWritten(meta: map<Text, HotMeta>, id: Text, c: CaptureTexts, fence: nat): map<Text, HotMeta> {
    (meta - {id})[id := HotMeta(c.gen, c.rev, c.count, Digits(fence))]
  }

  function RowsWritten(rows: map<Text, seq<Text>>, id: Text, c: CaptureTexts): map<Text, seq<Text>> {
    if |c.rows| > 0 then (rows - {id})[id := c.rows] else rows - {id}
  }

  lemma HotWritten(meta: map<Text, HotMeta>, rows: map<Text, seq<Text>>, snaps: map<Text, Snapshot>, id: Text,
                   cap: Capture, fence: nat)
    requires HotMirrors(meta, rows, snaps) && id != []
    ensures HotMirrors(MetaWritten(meta, id, CaptureText(cap), fence), RowsWritten(rows, id, CaptureText(cap)),
                       snaps[id := SnapshotFrom(cap, fence)])
  {
    hide Digits, Value, RowText;
    var meta', rows' := MetaWritten(meta, id, CaptureText(cap), fence), RowsWritten(rows, id, CaptureText(cap));
    var snaps' := snaps[id := SnapshotFrom(cap, fence)];
    assert StoredSnapshot(meta'[id], RowsAt(rows', id), snaps'[id]);
    hide StoredSnapshot, CaptureText;
    forall x | x in snaps' ensures StoredSnapshot(meta'[x], RowsAt(rows', x), snaps'[x]) {
      if x != id { assert RowsAt(rows', x) == RowsAt(rows, x) && meta'[x] == meta[x] && snaps'[x] == snaps[x]; }
    }
    assert meta'.Keys == snaps'.Keys;
  }

  /** The publish script's checks, on the stored texts. */
  function PublishVerdict(meta: map<Text, HotMeta>, n: nat, cur: Text, id: Text, fence: Text, gen: Text, rev: Text,
          expected: nat): PublishStatus
    requires AllDigits(fence) && AllDigits(rev)
    requires forall x :: x in meta ==> AllDigits(meta[x].revision) && AllDigits(meta[x].fence)
  {
    if id !in meta then Missing
    else if n != expected then Incomplete
    else if cur != [] && cur in meta && Less(gen, meta[cur].generation) then StaleGen
    else if cur != [] && cur in meta && meta[cur].generation == gen && Value(rev) < Value(meta[cur].revision) then StaleRev
    else if cur != [] && cur in meta && Value(fence) < Value(meta[cur].fence) then StaleFence
    else Published
  }

  lemma PublishVerdictIs(meta: map<Text, HotMeta>, rows: map<Text, seq<Text>>, w: Window, id: Text, fence: nat,
          gen: Text, rev: nat, expected: nat)
    requires HotMirrors(meta, rows, w.snaps)
    ensures forall x :: x in meta ==> AllDigits(meta[x].revision) && AllDigits(meta[x].fence)
    ensures PublishStep(w, id, fence, gen, rev, expected).1
         == PublishVerdict(meta, |RowsAt(rows, id)|, w.hot, id, Digits(fence), gen, Digits(rev), expected)
    ensures PublishStep(w, id, fence, gen, rev, expected).0
         == (if PublishStep(w, id, fence, gen, rev, expected).1 == Published then w.(hot := id) else w)
  {
    hide Digits, Value, RowText, Less, LiveOk, PublishStep, PublishVerdict;
    forall x | x in meta ensures AllDigits(meta[x].revision) && AllDigits(meta[x].fence) {
      assert StoredSnapshot(meta[x], RowsAt(rows, x), w.snaps[x]);
    }
    if w.hot in w.snaps { assert StoredSnapshot(meta[w.hot], RowsAt(rows, w.hot), w.snaps[w.hot]); }
    if id in w.snaps { assert StoredSnapshot(meta[id], RowsAt(rows, id), w.snaps[id]); }
    hide HotMirrors, StoredSnapshot, RowTexts;
    VerdictOfTexts(meta, |RowsAt(rows, id)|, w, id, fence, gen, rev, expected);
  }

  lemma VerdictOfTexts(meta: map<Text, HotMeta>, n: nat, w: Window, id: Text, fence: nat, gen: Text, rev: nat, expected: nat)
    requires meta.Keys == w.snaps.Keys
    requires forall x :: x in meta ==> AllDigits(meta[x].revision) && AllDigits(meta[x].fence)
    requires w.hot in w.snaps ==> meta[w.hot] == MetaOf(w.snaps[w.hot])
    requires id in w.snaps ==> n == |w.snaps[id].rows|
    ensures PublishStep(w, id, fence, gen, rev, expected).1
         == PublishVerdict(meta, n, w.hot, id, Digits(fence), gen, Digits(rev), expected)
    ensures PublishStep(w, id, fence, gen, rev, expected).0
         == (if PublishStep(w, id, fence, gen, rev, expected).1 == Published then w.(hot := id) else w)
  {
    hide Digits, Value, Less;
  }

  lemma MirrorsApplied(gens: map<Text, Keys>, w: Window, g: Text, user: Text, e: Entry, k: Keys)
    requires Consistent(w) && Mirrors(gens, w) && g != [] && ValidUpdate(user, e)
    requires ApplyStep(w, g, user, e).1.Applied?
    requires ValidBoard(At(w, g).board[user := e])
    requires k == Stored(Generation(At(w, g).board[user := e], At(w, g).revision + 1))
    ensures Consistent(ApplyStep(w, g, user, e).0) && Mirrors(gens[g := k], ApplyStep(w, g, user, e).0)
  {
    hide MemberOf, Beats, Less, Digits;
    ApplyAdvances(w, g, user, e);
    ApplyMerges(w, g, user, e);
    var w', gens' := ApplyStep(w, g, user, e).0, gens[g := k];
    assert At(w', g) == Generation(At(w, g).board[user := e], At(w, g).revision + 1);
    forall h ensures Lookup(gens', h) == Stored(At(w', h)) {
      if h != g { assert Lookup(gens', h) == Lookup(gens, h) && At(w', h) == At(w, h); }
    }
  }

  /** What an apply step does to the parts of the window outside its generation. */
  lemma ApplyOutcome(w: Window, g: Text, user: Text, e: Entry)
    requires Consistent(w) && g != [] && ValidUpdate(user, e)
    ensures var (w', r) := ApplyStep(w, g, user, e);
      && Consistent(w') && ValidBoard(At(w, g).board)
      && (w.current != [] && Less(g, w.current) ==> !r.Applied? && ReplyText(r) == (SSkipped, w.current))
      && (!r.Applied? ==> w' == w)
      && (r.Applied? ==>
            && ReplyText(r) == (SApplied, Digits(At(w, g).revision + 1))
            && w'.current == (if w.current == [] then g else w.current)
            && w'.dirty == (if w.current != [] && Less(w.current, g) then w.dirty else true)
            && w'.previous == w.previous && w'.pubSeq == w.pubSeq && w'.hot == w.hot && w'.snaps == w.snaps)
  {
    ApplyAdvances(w, g, user, e);
  }

  // ----- the window's keys --------------------------------------------------------

  class WindowStore {
    var current: Text
    var previous: Text
    var gens: map<Text, Keys>
    var dirty: bool
    var pubSeq: nat
    var hotCurrent: Text
    var hotMeta: map<Text, HotMeta>
    var hotRows: map<Text, seq<Text>>
    ghost var model: Window

    ghost predicate Valid()
      reads this
    {
      && Consistent(model)
      && current == model.current && previous == model.previous
      && dirty == model.dirty && pubSeq == model.pubSeq && hotCurrent == model.hot
      && Mirrors(gens, model)
      && HotMirrors(hotMeta, hotRows, model.snaps)
    }

    constructor ()
      ensures Valid() && model == EMPTY
    {
      current, previous, gens, dirty, pubSeq := [], [], map[], false, 0;
      hotCurrent, hotMeta, hotRows := [], map[], map[];
      model := EMPTY;
      new;
      assert Stored(Generation(map[], 0)) == NO_KEYS;
    }

    /** The apply script on its text arguments; `e` is the update they encode. */
    method ApplyScript(generation: Text, user: Text, member: Text, tokens: Text, revision: Text, remove: bool,
            ghost e: Entry)
      returns (status: Status, extra: Text)
      requires Valid() && generation != [] && ValidUpdate(user, e)
      requires remove == e.Gone? && revision == Digits(e.rev)
      requires e.Live? ==> member == MemberOf(user, e) && tokens == Digits(e.tokens)
      modifies this
      ensures Valid()
      ensures model == ApplyStep(old(model), generation, user, e).0
      ensures (status, extra) == ReplyText(ApplyStep(old(model), generation, user, e).1)
    {
      hide ApplyStep, Stored, MemberOf, Consistent, Refusal, ValidBoard, ValidUpdate, Digits, Value;
      ApplyOutcome(model, generation, user, e);
      assert Lookup(gens, generation) == Stored(At(model, generation));
      hide Mirrors, HotMirrors, ReplyText, At, Less;
      var cur := current;
      if cur != [] && Less(generation, cur) {
        return SSkipped, cur;
      }
      var future := false;
      if cur != [] && Less(cur, generation) {
        future := true;
      }
      var k := Lookup(gens, generation);
      RefusalIs(model, generation, user, e);
      var refusal := Refusal(k.versions, user, revision, remove);
      if refusal.Some? {
        return refusal.value.0, refusal.value.1;
      }
      k := WriteUser(k, user, member, tokens, revision, remove, At(model, generation), e);
      MirrorsApplied(gens, model, generation, user, e, k);
      gens := gens[generation := k];
      if cur == [] && !future {
        current := generation;
      }
      if !future {
        dirty := true;
      }
      model := ApplyStep(model, generation, user, e).0;
      return SApplied, Digits(k.revision);
    }

    /** Idx.Apply: refuses bad input before the script, else runs it on the encodings. */
    method Apply(generation: Text, user: Text, tokens: nat, revision: nat, nanos: int, remove: bool)
      returns (r: Result<(Status, Text)>)
      requires Valid() && tokens < UINT64 && revision < UINT64
      modifies this
      ensures Valid()
      ensures r.Ok? <==> generation != [] && ValidUserId(user) && (remove || Encodable(tokens, nanos))
      ensures r.Err? ==> model == old(model)
      ensures r.Ok? ==>
                var e := UpdateOf(tokens, revision, nanos, remove);
                && ValidUpdate(user, e)
                && model == ApplyStep(old(model), generation, user, e).0
                && r.value == ReplyText(ApplyStep(old(model), generation, user, e).1)
    {
      if generation == [] { return Err(InvalidGeneration); }
      var member := [];
      if !remove {
        var encoded := EncodeMember(tokens, nanos, user);
        EncodeMemberOk(tokens, nanos, user);
        if encoded.Err? { return Err(encoded.error); }
        member := encoded.value;
        MemberToMillis(tokens, revision, nanos, user);
      } else if !ValidUserId(user) {
        return Err(InvalidUserId);
      }
      ghost var e := UpdateOf(tokens, revision, nanos, remove);
      var status, extra := ApplyScript(generation, user, member, Digits(tokens), Digits(revision), remove, e);
      return Ok((status, extra));
    }

    method PromoteScript(generation: Text) returns (r: Promotion)
      requires Valid()
      modifies this
      ensures Valid()
      ensures model == PromoteStep(old(model), generation).0 && r == PromoteStep(old(model), generation).1
    {
      hide Digits, Value, Less, HotMirrors, Advances;
      PromoteAdvances(model, generation);
      KeysValid(gens, model, generation);
      hide Mirrors, LiveOk, ValidBoard;
      MirrorsSame(gens, model, PromoteStep(model, generation).0);
      var cur := current;
      if cur != [] {
        if Less(generation, cur) { return StaleGeneration; }
        if generation == cur { return AlreadyCurrent; }
      }
      var n := |Lookup(gens, generation).all|;
      if n == 0 { return EmptyGeneration; }
      if cur != [] { previous := cur; }
      current := generation;
      dirty := true;
      model := PromoteStep(model, generation).0;
      return Promoted;
    }

    /** The first HOT_SIZE rows of the keys of g, with ranks from those of p. */
    method TopRows(g: Text, p: Text) returns (out: seq<Text>, count: nat)
      requires Valid()
      ensures out == RowTexts(Take(BoardRows(At(model, g).board, At(model, p).board), HOT_SIZE))
      ensures count == |BoardRows(At(model, g).board, At(model, p).board)|
    {
      hide Digits, Value, RowTexts, RowText, HotMirrors;
      var k, pk := Lookup(gens, g), Lookup(gens, p);
      KeysValid(gens, model, g);
      KeysValid(gens, model, p);
      hide Stored, ValidBoard, LiveOk, BoardRows, Ordered, Mirrors, Part;
      RowCount(At(model, g), At(model, p));
      var members := Take(Ordered(k.all), HOT_SIZE);
      TakeIsPart(Ordered(k.all), HOT_SIZE);
      TakeIsPart(BoardRows(At(model, g).board, At(model, p).board), HOT_SIZE);
      out := ScriptRows(members, k, pk, At(model, g), At(model, p), 0);
      count := |k.all|;
    }

    /** The capture script: rows of the keys it was given, the current label. */
    method CaptureScript(g: Text, p: Text) returns (r: Option<CaptureTexts>)
      requires Valid()
      ensures r == (match CaptureStep(model, g, p) case None => None case Some(c) => Some(CaptureText(c)))
    {
      hide Digits, Value, RowTexts, RowText, HotMirrors, BoardRows;
      var gen := current;
      if gen == [] { return None; }
      KeysValid(gens, model, g);
      hide Stored, ValidBoard, LiveOk, Mirrors;
      var rows, count := TopRows(g, p);
      r := Some(CaptureTexts(gen, Digits(Lookup(gens, g).revision), Digits(count), rows));
    }

    /** The snapshot transaction: drop both keys, push the rows, set the fields. */
    method WriteSnapshot(id: Text, c: CaptureTexts, fence: nat, ghost cap: Capture)
      requires Valid() && id != [] && c == CaptureText(cap)
      modifies this
      ensures Valid()
      ensures model == old(model).(snaps :=
                old(model).snaps[id := SnapshotFrom(cap, fence)])
    {
      hide HotMirrors, Mirrors, LiveOk, RowTexts, CaptureText, Digits, Value;
      HotWritten(hotMeta, hotRows, model.snaps, id, cap, fence);
      hotRows, hotMeta := hotRows - {id}, hotMeta - {id};
      if |c.rows| > 0 { hotRows := hotRows[id := c.rows]; }
      hotMeta := hotMeta[id := HotMeta(c.gen, c.rev, c.count, Digits(fence))];
      ghost var w := model.(snaps := model.snaps[id := SnapshotFrom(cap, fence)]);
      MirrorsSame(gens, model, w);
      model := w;
    }

    /** INCR of the fence counter. */
    method NextFence() returns (fence: nat)
      requires Valid()
      modifies this
      ensures Valid() && model == old(model).(pubSeq := fence) && fence == old(model).pubSeq + 1
    {
      hide HotMirrors, Mirrors, LiveOk;
      pubSeq := pubSeq + 1;
      fence := pubSeq;
      MirrorsSame(gens, model, model.(pubSeq := fence));
      model := model.(pubSeq := fence);
    }

    /** EXPIRE of both keys of a snapshot, one call each. */
    method Expire(id: Text)
      requires Valid()
      modifies this
      ensures Valid() && model == old(model).(expiring := old(model).expiring + {id})
    {
      hide HotMirrors, Mirrors, LiveOk;
      MirrorsSame(gens, model, model.(expiring := model.expiring + {id}));
      model := model.(expiring := model.expiring + {id});
    }

    /** DEL or SET of the dirty flag. */
    method SetDirty(flag: bool)
      requires Valid() && (flag ==> current != [])
      modifies this
      ensures Valid() && model == old(model).(dirty := flag)
    {
      hide HotMirrors, Mirrors, LiveOk;
      dirty := flag;
      MirrorsSame(gens, model, model.(dirty := flag));
      model := model.(dirty := flag);
    }

    method PublishScript(id: Text, fence: Text, gen: Text, rev: Text, expected: nat, ghost f: nat, ghost r: nat)
      returns (status: PublishStatus)
      requires Valid() && fence == Digits(f) && rev == Digits(r)
      modifies this
      ensures Valid()
      ensures model == PublishStep(old(model), id, f, gen, r, expected).0
      ensures status == PublishStep(old(model), id, f, gen, r, expected).1
    {
      hide PublishStep, PublishVerdict, Mirrors, HotMirrors, LiveOk, Digits, Value;
      PublishVerdictIs(hotMeta, hotRows, model, id, f, gen, r, expected);
      status := PublishVerdict(hotMeta, |RowsAt(hotRows, id)|, hotCurrent, id, fence, gen, rev, expected);
      if status == Published {
        hotCurrent := id;
        MirrorsSame(gens, model, model.(hot := id));
        model := model.(hot := id);
      }
    }

    /** own_fields: rank and tokens of the viewer in the live keys. */
    method OwnTexts(user: Text) returns (rank: Text, tokens: Text)
      requires Valid() && current != []
      ensures var own := OwnFields(At(model, model.current).board, user);
              rank == OwnRankText(own) && tokens == OwnTokensText(own)
    {
      if user == [] { return [], []; }
      var k := Lookup(gens, current);
      ghost var g := At(model, current);
      StoredUser(g, user);
      var member := StoredMember(k.users, user);
      if user !in k.users { return [], []; }
      tokens := StoredTokens(k.users, user);
      if member.None? || member.value !in k.all { return [], tokens; }
      rank := Digits(RankOf(k.all, member.value) + 1);
    }

    method ReadScript(snapId: Text, start: int, stop: int, user: Text, cap: nat) returns (r: PageTexts)
      requires Valid()
      ensures r == PageText(ReadStep(model, snapId, start, stop, user, cap))
    {
      hide Less, RedisRange, Digits, Value, LiveOk, BoardRows, OwnFields, ScriptPage, RowText, RowTexts, Stored, Members, ReadStep, PageText, Bounds;
      ReadTexts(model, snapId, start, stop, user, cap);
      if current == [] { return MissTexts; }
      var live := Lookup(gens, current);
      KeysValid(gens, model, current);
      assert hotMeta.Keys == model.snaps.Keys;
      var id := if snapId == [] then hotCurrent else snapId;
      var matched := id != [] && id in hotMeta && hotMeta[id].generation == current && hotMeta[id].revision == Digits(live.revision);
      MatchedTexts(hotMeta, hotRows, model, id, live.revision);
      hide Mirrors, HotMirrors, Matched;
      var ownRank, ownTokens := OwnTexts(user);
      if user != [] && !matched {
        var page := LivePage(start, stop, cap);
        return PageTexts(LiveView, id, current, Digits(live.revision), Digits(|live.all|), ownRank, ownTokens, page);
      }
      if id == [] || id !in hotMeta { return MissTexts; }
      var page := HotPage(id, start, stop, cap);
      var meta := hotMeta[id];
      return PageTexts(HotView, id, meta.generation, meta.revision, meta.participants, ownRank, ownTokens, page);
    }

    /** The rows of the live keys in a range of Redis indices. */
    method RangeRows(a: int, b: int) returns (page: seq<Text>)
      requires Valid()
      ensures page == RowTexts(RedisRange(BoardRows(At(model, model.current).board, At(model, model.previous).board), a, b))
    {
      hide Digits, Value, RedisRange, RowTexts, RowText, HotMirrors;
      var live, prev := Lookup(gens, current), if previous == [] then NO_KEYS else Lookup(gens, previous);
      ghost var g, pg := At(model, current), At(model, previous);
      KeysValid(gens, model, current);
      KeysValid(gens, model, previous);
      NoPrevious(model);
      hide Stored, ValidBoard, LiveOk, BoardRows, Ordered, Mirrors, RangeStart, Part;
      RowCount(g, pg);
      ghost var rows := BoardRows(g.board, pg.board);
      ghost var from := RangeStart(|Ordered(live.all)|, a);
      var members := RedisRange(Ordered(live.all), a, b);
      RangesAgree(Ordered(live.all), rows, a, b);
      page := ScriptRows(members, live, prev, g, pg, from);
    }

    method LivePage(start: int, stop: int, cap: nat) returns (page: seq<Text>)
      requires Valid()
      ensures page == RowTexts(ScriptPage(BoardRows(At(model, model.current).board, At(model, model.previous).board), start, stop, cap))
      ensures |Lookup(gens, model.current).all| == |Members(At(model, model.current).board)|
    {
      hide Digits, Value, RedisRange, RowTexts, RowText, HotMirrors;
      var (a, b) := Bounds(start, stop, cap);
      KeysValid(gens, model, current);
      KeysValid(gens, model, previous);
      NoPrevious(model);
      RowCount(At(model, current), At(model, previous));
      hide ValidBoard, LiveOk, BoardRows, Mirrors;
      page := RangeRows(a, b);
    }

    method HotPage(id: Text, start: int, stop: int, cap: nat) returns (page: seq<Text>)
      requires Valid() && id in model.snaps
      ensures id in hotMeta && hotMeta[id] == MetaOf(model.snaps[id])
      ensures page == RowTexts(ScriptPage(model.snaps[id].rows, start, stop, cap))
    {
      hide Digits, Value, RedisRange;
      var (a, b) := Bounds(start, stop, cap);
      RangeOfTexts(model.snaps[id].rows, a, b);
      assert StoredSnapshot(hotMeta[id], RowsAt(hotRows, id), model.snaps[id]);
      hide Mirrors, LiveOk, RedisRange, RowText;
      page := RedisRange(RowsAt(hotRows, id), a, b);
    }
  }

  /** The update that Apply's arguments denote. */
  function UpdateOf(tokens: nat, revision: nat, nanos: int, remove: bool): Entry {
    if remove || UnixMilli(nanos) < 0 then Gone(revision) else Live(revision, tokens, UnixMilli(nanos))
  }

  lemma MemberToMillis(tokens: nat, revision: nat, nanos: int, user: Text)
    requires ValidUserId(user) && Encodable(tokens, nanos) && revision < UINT64
    ensures ValidUpdate(user, UpdateOf(tokens, revision, nanos, false))
    ensures MemberText(tokens, nanos, user) == MemberOf(user, UpdateOf(tokens, revision, nanos, false))
  {
    var ms := UnixMilli(nanos);
    assert UnixMilli(ms * 1_000_000) == ms;
    MemberShape(tokens, nanos, user);
    MemberShape(tokens, ms * 1_000_000, user);
  }

  lemma TextsFrom(out: seq<Text>, rows: seq<Row>, from: nat)
    requires out == [] || from + |out| <= |rows|
    requires forall i :: 0 <= i < |out| ==> out[i] == RowText(rows[from + i])
    ensures out == RowTexts(Part(rows, from, |out|))
  {
    hide RowText;
  }

  /** n elements from a position, or none when there are not so many. */
  function Part<T>(s: seq<T>, from: nat, n: nat): seq<T> { if from + n <= |s| then s[from..from + n] else [] }

  lemma TakeIsPart<T>(s: seq<T>, n: nat)
    ensures Take(s, n) == Part(s, 0, |Take(s, n)|)
  {
  }

  lemma RowCount(g: Generation, pg: Generation)
    requires ValidBoard(g.board) && ValidBoard(pg.board)
    ensures |BoardRows(g.board, pg.board)| == |Stored(g).all|
  {
  }

  lemma RowAt(g: Generation, pg: Generation, i: nat)
    requires ValidBoard(g.board) && ValidBoard(pg.board) && i < |Stored(g).all|
    ensures i < |BoardRows(g.board, pg.board)|
    ensures var uid := LastField(Ordered(Stored(g).all)[i]);
            uid + [TAB] + StoredTokens(Stored(g).users, uid) + [TAB] + StoredRank(Stored(pg), uid)
            == RowText(BoardRows(g.board, pg.board)[i])
  {
    StoredMembers(g, i);
    StoredRow(g, pg, Standing(g.board)[i]);
    hide StoredTokens, StoredRank, RowText, Standing, Members, Ordered, LastField;
  }

  /** The row loop of the capture and read scripts over a run of members. */
  method ScriptRows(members: seq<Text>, k: Keys, pk: Keys, ghost g: Generation, ghost pg: Generation, ghost from: nat)
    returns (out: seq<Text>)
    requires ValidBoard(g.board) && ValidBoard(pg.board) && k == Stored(g) && pk == Stored(pg)
    requires members == Part(Ordered(k.all), from, |members|)
    ensures out == RowTexts(Part(BoardRows(g.board, pg.board), from, |members|))
  {
    hide Stored, RowText, BoardRows, StoredTokens, StoredRank, ValidBoard, Ordered, LastField, RowTexts;
    RowCount(g, pg);
    out := [];
    for i := 0 to |members|
      invariant |out| == i
      invariant forall j :: 0 <= j < i ==> out[j] == RowText(BoardRows(g.board, pg.board)[from + j])
    {
      var uid := MemberUser(members[i]);
      RowAt(g, pg, from + i);
      out := out + [uid + [TAB] + StoredTokens(k.users, uid) + [TAB] + StoredRank(pk, uid)];
    }
    TextsFrom(out, BoardRows(g.board, pg.board), from);
  }

  /** The text of the read step, branch by branch. */
  lemma ReadTexts(w: Window, snapId: Text, start: int, stop: int, user: Text, cap: nat)
    requires Consistent(w)
    ensures var b, prev := At(w, w.current).board, At(w, w.previous).board;
            var own, id := OwnFields(b, user), ChosenSnapshot(w, snapId);
            PageText(ReadStep(w, snapId, start, stop, user, cap)) ==
              if w.current == [] then MissTexts
              else if user != [] && !Matched(w, id) then
                PageTexts(LiveView, id, w.current, Digits(LiveRev(w)), Digits(|Members(b)|), OwnRankText(own),
                          OwnTokensText(own), RowTexts(ScriptPage(BoardRows(b, prev), start, stop, cap)))
              else if id == [] || id !in w.snaps then MissTexts
              else
                var meta := MetaOf(w.snaps[id]);
                PageTexts(HotView, id, meta.generation, meta.revision, meta.participants, OwnRankText(own),
                          OwnTokensText(own), RowTexts(ScriptPage(w.snaps[id].rows, start, stop, cap)))
  {
    hide Digits, BoardRows, ScriptPage, RowTexts, OwnFields, Members, Matched;
  }

  lemma MatchedTexts(meta: map<Text, HotMeta>, rows: map<Text, seq<Text>>, w: Window, id: Text, rev: nat)
    requires HotMirrors(meta, rows, w.snaps) && rev == LiveRev(w)
    ensures Matched(w, id) <==>
      id != [] && id in meta && meta[id].generation == w.current && meta[id].revision == Digits(rev)
  {
    if id in w.snaps {
      assert StoredSnapshot(meta[id], RowsAt(rows, id), w.snaps[id]);
      DigitsInjective(w.snaps[id].rev, rev);
    }
  }

  lemma NoPrevious(w: Window)
    requires Consistent(w)
    ensures w.previous == [] ==> At(w, w.previous) == Generation(map[], 0) && Stored(At(w, w.previous)) == NO_KEYS
  {
  }

  /** The index of the first element that a range serves. */
  function RangeStart(n: nat, a: int): nat {
    var x := if a < 0 then a + n else a;
    if x < 0 then 0 else x
  }

  lemma RangesAgree<T, U>(s: seq<T>, t: seq<U>, a: int, b: int)
    requires |s| == |t|
    ensures var x, y := RedisRange(s, a, b), RedisRange(t, a, b);
      && |x| == |y| && x == Part(s, RangeStart(|s|, a), |x|) && y == Part(t, RangeStart(|s|, a), |y|)
  {
  }

  lemma RangeOfTexts(rows: seq<Row>, a: int, b: int)
    ensures RedisRange(RowTexts(rows), a, b) == RowTexts(RedisRange(rows, a, b))
  {
    RangesAgree(rows, RowTexts(rows), a, b);
  }

  /** The apply script's writes to one generation's keys. */
  method WriteUser(keys: Keys, user: Text, member: Text, tokens: Text, revision: Text, remove: bool,
                   ghost g: Generation, ghost e: Entry)
    returns (k: Keys)
    requires ValidBoard(g.board) && keys == Stored(g) && ValidUpdate(user, e)
    requires remove == e.Gone? && revision == Digits(e.rev)
    requires e.Live? ==> member == MemberOf(user, e) && tokens == Digits(e.tokens)
    ensures ValidBoard(g.board[user := e])
    ensures k == Stored(Generation(g.board[user := e], g.revision + 1)) && k.revision == g.revision + 1
  {
    k := keys;
    UpdateTexts(g, user, e, member, tokens, revision);
    hide MemberOf, Stored, ValidBoard, StoredMember, Digits;
    var oldMember := StoredMember(k.users, user);
    if oldMember.Some? {
      k := k.(all := k.all - {oldMember.value});
    }
    if remove {
      k := k.(users := k.users - {user}, versions := k.versions[user := revision + [BAR, DEL]]);
    } else {
      k := k.(all := k.all + {member},
              users := k.users[user := revision + [TAB] + tokens + [TAB] + member],
              versions := k.versions[user := revision]);
    }
    k := k.(revision := k.revision + 1);
  }

  /** The keys of the updated board, in the texts that the script was given. */
  lemma UpdateTexts(g: Generation, user: Text, e: Entry, member: Text, tokens: Text, revision: Text)
    requires ValidBoard(g.board) && ValidUpdate(user, e) && revision == Digits(e.rev)
    requires e.Live? ==> member == MemberOf(user, e) && tokens == Digits(e.tokens)
    ensures ValidBoard(g.board[user := e]) && Stored(g).revision == g.revision
    ensures Stored(Generation(g.board[user := e], g.revision + 1)) ==
      Rewritten(Stored(g), user, StoredMember(Stored(g).users, user),
                if e.Live? then Some(revision + [TAB] + tokens + [TAB] + member) else None, member,
                if e.Gone? then revision + [BAR, DEL] else revision)
  {
    StoredUser(g, user);
    StoredUpdated(g, user, e);
    assert revision + [] == revision;
    assert Stored(g).revision == g.revision;
    hide MemberOf, Stored, ValidBoard, StoredMember, Digits;
  }
}
