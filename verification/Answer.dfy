/** Index.Read: the reply texts of the read script turned into ranked entries. */
module Answer {
  import opened Bytes
  import opened Decimal
  import opened Encode
  import opened Board
  import opened Window
  import opened Reader
  import opened Scripts

  datatype EntryText = EntryText(user: Text, rank: int, tokens: Text, previousRank: Option<int>)

  datatype Answer = NoAnswer
                  | Answer(view: View, id: Text, gen: Text, rev: Text, participants: int,
                           entries: seq<EntryText>, own: Option<EntryText>)

  /** strconv.Atoi where its error is ignored or means absence. */
  function Atoi(s: Text): int {
    match ParseInt(s)
    case None => 0
    case Some(n) => n
  }

  /** SplitN(row, "\t", 3): at least two parts, a user, tokens, maybe a previous rank. */
  function ParseHotRow(row: Text, rank: int): Result<EntryText> {
    var t1 := Find(row, TAB, 0);
    if t1 == |row| || t1 == 0 then Err(InvalidMember)
    else
      var t2 := Find(row, TAB, t1 + 1);
      var tokens := row[t1 + 1..t2];
      var last := if t2 == |row| then [] else row[t2 + 1..];
      Ok(EntryText(row[..t1], rank, if tokens == [] then [ZERO] else tokens,
                   if last != [] && Atoi(last) > 0 then Some(Atoi(last)) else None))
  }

  function TextOf(e: Ranked): EntryText {
    EntryText(e.user, e.rank, Digits(e.tokens),
              match e.previousRank case None => None case Some(p) => Some(p))
  }

  function TextsOf(e: seq<Ranked>): (t: seq<EntryText>)
    ensures |t| == |e|
  {
    seq(|e|, i requires 0 <= i < |e| => TextOf(e[i]))
  }

  function AnswerOf(r: ReadResult, user: Text): Answer {
    match r
    case NoResult => NoAnswer
    case ReadResult(view, id, gen, rev, participants, entries, own) =>
      Answer(view, id, gen, Digits(rev), participants, TextsOf(entries),
             if own.Own? then Some(EntryText(user, own.rank, Digits(own.tokens), None)) else None)
  }

  predicate PresentableRow(r: Row) { ValidUserId(r.user) && r.prevRank <= MAX_INT }

  /** Counts fit Go's int and snapshots hold rows of valid users. */
  ghost predicate Presentable(w: Window)
    requires Consistent(w)
  {
    && (forall g :: g in w.gens ==> |Members(w.gens[g].board)| <= MAX_INT)
    && (forall x :: x in w.snaps ==>
          w.snaps[x].participants <= MAX_INT && forall r :: r in w.snaps[x].rows ==> PresentableRow(r))
  }

  lemma AtoiDigits(n: nat)
    requires n <= MAX_INT
    ensures Atoi(Digits(n)) == n
  {
    assert IsDigit(Digits(n)[0]);
  }

  lemma ParseHotRowOf(r: Row, rank: int)
    requires PresentableRow(r)
    ensures ParseHotRow(RowText(r), rank) == Ok(EntryText(r.user, rank, Digits(r.tokens),
              if r.prevRank > 0 then Some(r.prevRank) else None))
  {
    var last := if r.prevRank == 0 then [] else Digits(r.prevRank);
    DigitsHaveNo(Digits(r.tokens), TAB);
    if r.prevRank > 0 { AtoiDigits(r.prevRank); }
    hide Digits, Value, Find, Atoi, ParseHotRow, Joined;
    assert RowText(r) == Joined(r.user, Digits(r.tokens), last, TAB) by { RowTextJoined(r); }
    ParseJoined(r.user, Digits(r.tokens), last, rank);
  }

  lemma RowTextJoined(r: Row)
    ensures RowText(r) == Joined(r.user, Digits(r.tokens), if r.prevRank == 0 then [] else Digits(r.prevRank), TAB)
  {
    hide Digits, Value;
  }

  lemma ParseJoined(a: Text, b: Text, c: Text, rank: int)
    requires a != [] && TAB !in a && TAB !in b
    ensures ParseHotRow(Joined(a, b, c, TAB), rank) == Ok(EntryText(a, rank, if b == [] then [ZERO] else b,
              if c != [] && Atoi(c) > 0 then Some(Atoi(c)) else None))
  {
    hide Find, Atoi, Joined;
    JoinedFields(a, b, c, TAB);
    var m := Joined(a, b, c, TAB);
    assert |a| + 1 + |b| + 1 == |a| + 2 + |b|;
    assert m[|a| + 1 + |b| + 1..] == c;
  }

  lemma BoardRowsPresentable(b: Users, prev: Users)
    requires ValidBoard(b) && ValidBoard(prev) && |Members(prev)| <= MAX_INT
    ensures forall r :: r in BoardRows(b, prev) ==> PresentableRow(r)
  {
    forall i | 0 <= i < |BoardRows(b, prev)| ensures PresentableRow(BoardRows(b, prev)[i]) {
      StandingRank(b, i);
      var u := Standing(b)[i];
      assert ValidUpdate(u, b[u]);
      if IsLive(prev, u) { StandingAtRank(prev, u); }
    }
  }

  lemma RangeMembers<T>(s: seq<T>, a: int, b: int)
    ensures forall x :: x in RedisRange(s, a, b) ==> x in s
  {
  }

  /** Whatever page is served, its rows parse and its counts are Go ints. */
  lemma PagePresentable(w: Window, snapId: Text, start: int, stop: int, user: Text, cap: nat)
    requires Consistent(w) && Presentable(w)
    ensures var p := ReadStep(w, snapId, start, stop, user, cap);
            p.Page? ==> p.participants <= MAX_INT && (forall r :: r in p.rows ==> PresentableRow(r))
                        && (p.own.Own? ==> 0 < p.own.rank <= MAX_INT && user != [])
  {
    var p := ReadStep(w, snapId, start, stop, user, cap);
    if p.Page? {
      var b, prev := At(w, w.current).board, At(w, w.previous).board;
      EmptyIsPresentable(w);
      BoardRowsPresentable(b, prev);
      if IsLive(b, user) { StandingAtRank(b, user); }
      var (lo, hi) := Bounds(start, stop, cap);
      RangeMembers(BoardRows(b, prev), lo, hi);
      if ChosenSnapshot(w, snapId) in w.snaps { RangeMembers(w.snaps[ChosenSnapshot(w, snapId)].rows, lo, hi); }
    }
  }

  lemma EmptyIsPresentable(w: Window)
    requires Consistent(w) && Presentable(w)
    ensures forall g :: |Members(At(w, g).board)| <= MAX_INT
  {
    assert Members(map[]) == {};
  }

  /** Bounds, one script call, then one entry per reply row with ranks counted up
      from the offset. */
  method Read(store: WindowStore, snapId: Text, offset: int, limit: int, user: Text) returns (r: Result<Answer>)
    requires store.Valid() && Presentable(store.model) && Int64(offset) && Int64(limit)
    ensures r == Ok(AnswerOf(Reader.Read(store.model, snapId, offset, limit, user), user))
  {
    hide ReadStep, LiveOk, Mirrors, HotMirrors, Digits, Value, RowText, Presentable, PageText, Wrap64, AnswerOf, Present;
    var lim := if limit <= 0 then 50 else limit;
    var off := if offset < 0 then 0 else offset;
    var stop := Wrap64(off + lim - 1);
    KeysValid(store.gens, store.model, store.model.current);
    ghost var page := ReadStep(store.model, snapId, off, stop, user, PUBLIC_CAP - 1);
    PagePresentable(store.model, snapId, off, stop, user, PUBLIC_CAP - 1);
    var raw := store.ReadScript(snapId, off, stop, user, PUBLIC_CAP - 1);
    r := Shape(raw, page, off, user);
  }

  method Shape(raw: PageTexts, ghost page: Page, off: int, user: Text) returns (r: Result<Answer>)
    requires raw == PageText(page)
    requires page.Page? ==> page.participants <= MAX_INT && (forall r :: r in page.rows ==> PresentableRow(r))
                            && (page.own.Own? ==> 0 < page.own.rank <= MAX_INT && user != [])
    ensures r == Ok(AnswerOf(Present(page, off + 1), user))
  {
    hide Digits, Value, RowText, Atoi;
    if raw.MissTexts? { return Ok(NoAnswer); }
    AtoiDigits(page.participants);
    var ownRank := OwnRank(raw, page, user);
    var own: Option<EntryText> := None;
    if user != [] && ownRank > 0 {
      own := Some(EntryText(user, ownRank, if raw.ownTokens == [] then [ZERO] else raw.ownTokens, None));
    }
    var entries := Entries(raw.rows, page.rows, off + 1);
    r := Ok(Answer(raw.view, raw.id, raw.gen, raw.rev, Atoi(raw.count), entries, own));
  }

  method OwnRank(raw: PageTexts, ghost page: Page, user: Text) returns (rank: int)
    requires page.Page? && raw == PageText(page)
    requires page.own.Own? ==> 0 < page.own.rank <= MAX_INT
    ensures rank == if page.own.Own? then page.own.rank else 0
  {
    if page.own.Own? { AtoiDigits(page.own.rank); }
    rank := Atoi(raw.ownRank);
  }

  method Entries(texts: seq<Text>, ghost rows: seq<Row>, first: int) returns (entries: seq<EntryText>)
    requires texts == RowTexts(rows) && forall r :: r in rows ==> PresentableRow(r)
    ensures entries == TextsOf(Numbered(rows, first))
  {
    hide Digits, Value, RowText, ParseHotRow;
    entries := [];
    var rank := first;
    for i := 0 to |texts|
      invariant rank == first + i && |entries| == i
      invariant forall j :: 0 <= j < i ==> entries[j] == TextOf(Numbered(rows, first)[j])
    {
      assert rows[i] in rows;
      ParseHotRowOf(rows[i], rank);
      var entry := ParseHotRow(texts[i], rank);
      entries := entries + [entry.value];
      rank := rank + 1;
    }
  }
}
