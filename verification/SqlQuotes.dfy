/** When the runner's lexer reads quoted literals as SQL does. SQL lets a backslash in a
    single- or double-quoted literal consume the next character; the runner looks at
    the one character before a quote. */
module SqlQuotes {
  import opened Splitter

  // ----- both lexers, one step at a time ---------------------------------------------

  datatype Advance = Advance(length: nat, mode: Mode)

  /** The length of a step and the mode after it. The two lexers differ only inside
      single- and double-quoted literals. */
  function Move(sql: bool, s: string, i: nat, mode: Mode): (r: Advance)
    requires i < |s|
    ensures r.length == 1 || (r.length == 2 && i + 1 < |s|)
  {
    var c := s[i];
    match mode
    case Block => if c == '*' && i + 1 < |s| && s[i + 1] == '/' then Advance(2, Plain) else Advance(1, Block)
    case Line => if c == '\n' || c == '\r' then Advance(1, Plain) else Advance(1, Line)
    case Plain =>
      if OpensBlock(s, i) then Advance(2, Block)
      else if c == '#' then Advance(1, Line)
      else if OpensDashes(s, i) then Advance(2, Line)
      else Advance(1, Opened(c))
    case Single =>
      if sql && c == '\\' && i + 1 < |s| then Advance(2, Single)
      else if c == '\'' && (sql || !Escaped(s, i)) then
        if i + 1 < |s| && s[i + 1] == '\'' then Advance(2, Single) else Advance(1, Plain)
      else Advance(1, Single)
    case Double =>
      if sql && c == '\\' && i + 1 < |s| then Advance(2, Double)
      else Advance(1, if c == '"' && (sql || !Escaped(s, i)) then Plain else Double)
    case Back => Advance(1, if c == '`' then Plain else Back)
  }

  predicate Cuts(s: string, i: nat, mode: Mode)
    requires i < |s|
  {
    mode == Plain && s[i] == ';'
  }

  /** What a step adds to the statement: comments vanish but for a line break. */
  function Collected(s: string, i: nat, mode: Mode, n: nat): string
    requires i + n <= |s| && i < |s|
  {
    match mode
    case Block => []
    case Line => if s[i] == '\n' || s[i] == '\r' then [s[i]] else []
    case Plain => if OpensBlock(s, i) || s[i] == '#' || OpensDashes(s, i) then [] else [s[i]]
    case _ => s[i..i + n]
  }

  function Split(sql: bool, s: string, i: nat, mode: Mode, cur: string): seq<string>
    requires i <= |s|
    decreases |s| - i
  {
    if i == |s| then Emit(cur)
    else if Cuts(s, i, mode) then Emit(cur) + Split(sql, s, i + 1, Plain, [])
    else
      var Advance(n, next) := Move(sql, s, i, mode);
      Split(sql, s, i + n, next, cur + Collected(s, i, mode, n))
  }

  /** The statements of a text as SQL reads its literals. */
  function SqlStatements(s: string): seq<string> { Split(true, s, 0, Plain, []) }

  lemma {:induction false} SplitIsScan(s: string, i: nat, mode: Mode, cur: string)
    requires i <= |s|
    ensures Split(false, s, i, mode, cur) == Scan(s, i, mode, cur)
    decreases |s| - i
  {
    hide Emit;
    if i < |s| {
      if Cuts(s, i, mode) {
        SplitIsScan(s, i + 1, Plain, []);
      } else {
        var Advance(n, next) := Move(false, s, i, mode);
        SplitIsScan(s, i + n, next, cur + Collected(s, i, mode, n));
        assert s[i..i + 1] == [s[i]] && (n == 2 ==> s[i..i + 2] == [s[i], s[i + 1]]);
        assert cur + [] == cur;
      }
    }
  }

  /** The runner's statements are those of the stepwise reading. */
  lemma RunnerSplits(s: string)
    ensures Statements(s) == Split(false, s, 0, Plain, [])
  {
    SplitIsScan(s, 0, Plain, []);
  }

  // ----- modes at every position ----------------------------------------------------------

  /** The mode before a position; `inside` a two-character step its second character is
      passed over unread. */
  datatype Lex = Lex(mode: Mode, inside: bool)

  function Next(sql: bool, s: string, k: nat, l: Lex): Lex
    requires k < |s|
  {
    if l.inside then Lex(l.mode, false)
    else Lex(Move(sql, s, k, l.mode).mode, Move(sql, s, k, l.mode).length == 2)
  }

  function LexAt(sql: bool, s: string, k: nat): Lex
    requires k <= |s|
  {
    if k == 0 then Lex(Plain, false) else Next(sql, s, k - 1, LexAt(sql, s, k - 1))
  }

  function ModeAt(sql: bool, s: string, k: nat): Mode
    requires k <= |s|
  {
    LexAt(sql, s, k).mode
  }

  ghost predicate SameModes(s: string) { forall k :: 0 <= k <= |s| ==> ModeAt(false, s, k) == ModeAt(true, s, k) }

  // ----- the condition ----------------------------------------------------------------------

  /** How many backslashes stand right before a position. */
  function Slashes(s: string, k: nat): nat
    requires k <= |s|
  {
    if k > 0 && s[k - 1] == '\\' then 1 + Slashes(s, k - 1) else 0
  }

  predicate Odd(n: nat) { n % 2 == 1 }

  lemma OddNext(n: nat)
    ensures Odd(1 + n) <==> !Odd(n)
    ensures !Odd(0)
  {
  }

  predicate OwnQuote(mode: Mode, c: char) { (mode == Single && c == '\'') || (mode == Double && c == '"') }

  /** A literal's own quote behind an even, non-empty run of backslashes. The run ends
      at the opening quote at the latest, so it lies inside the literal. */
  predicate Misread(s: string, k: nat)
    requires k < |s|
  {
    OwnQuote(ModeAt(false, s, k), s[k]) && Slashes(s, k) > 0 && !Odd(Slashes(s, k))
  }

  ghost predicate Clean(s: string) { forall k :: 0 <= k < |s| ==> !Misread(s, k) }

  predicate Quoted(mode: Mode) { mode == Single || mode == Double }

  /** How the two lexers stand to each other as long as they agree. */
  predicate Agree(s: string, k: nat, r: Lex, q: Lex)
    requires k < |s|
  {
    && r.mode == q.mode
    && (Quoted(r.mode) ==> (q.inside <==> r.inside || Odd(Slashes(s, k))))
    && (Quoted(r.mode) && r.inside ==> s[k] == '\'' && Slashes(s, k) == 0)
    && (!Quoted(r.mode) ==> q.inside == r.inside)
  }

  lemma SlashesNext(s: string, k: nat)
    requires k < |s|
    ensures Slashes(s, k + 1) == if s[k] == '\\' then 1 + Slashes(s, k) else 0
    ensures Escaped(s, k) <==> Slashes(s, k) > 0
  {
  }

  /** Outside quoted literals the lexers are the same. */
  lemma AgreeOutside(s: string, k: nat, l: Lex)
    requires k < |s| && !Quoted(l.mode)
    ensures Next(false, s, k, l) == Next(true, s, k, l)
    ensures k + 1 < |s| ==> Agree(s, k + 1, Next(false, s, k, l), Next(true, s, k, l))
  {
    SlashesNext(s, k);
    OddNext(0);
    hide Slashes, Odd;
  }

  /** A character that one of them passes over unread. */
  lemma AgreeInside(s: string, k: nat, r: Lex, q: Lex)
    requires k < |s| && Agree(s, k, r, q) && Quoted(r.mode) && q.inside
    ensures Next(false, s, k, r).mode == Next(true, s, k, q).mode
    ensures k + 1 < |s| ==> Agree(s, k + 1, Next(false, s, k, r), Next(true, s, k, q))
  {
    SlashesNext(s, k);
    OddNext(0);
    hide Slashes, Odd;
  }

  lemma AgreeSlash(s: string, k: nat, mode: Mode)
    requires k < |s| && Quoted(mode) && s[k] == '\\' && !Odd(Slashes(s, k))
    ensures Next(false, s, k, Lex(mode, false)) == Lex(mode, false)
    ensures Next(true, s, k, Lex(mode, false)) == Lex(mode, k + 1 < |s|)
    ensures k + 1 < |s| ==> Agree(s, k + 1, Lex(mode, false), Lex(mode, true))
  {
    SlashesNext(s, k);
    hide Slashes, OpensBlock, OpensDashes, Opened;
    OddNext(Slashes(s, k));
    hide Odd;
  }

  lemma AgreePlainChar(s: string, k: nat, mode: Mode)
    requires k < |s| && Quoted(mode) && s[k] != '\\' && (OwnQuote(mode, s[k]) ==> Slashes(s, k) == 0)
    ensures Next(false, s, k, Lex(mode, false)) == Next(true, s, k, Lex(mode, false))
    ensures k + 1 < |s| ==> Agree(s, k + 1, Next(false, s, k, Lex(mode, false)), Next(true, s, k, Lex(mode, false)))
  {
    SlashesNext(s, k);
    OddNext(0);
    hide Slashes, OpensBlock, OpensDashes, Opened, Odd;
  }

  /** A character that both of them read. */
  lemma AgreeRead(s: string, k: nat, r: Lex, q: Lex)
    requires k < |s| && Agree(s, k, r, q) && Quoted(r.mode) && !q.inside
    requires !(OwnQuote(r.mode, s[k]) && Slashes(s, k) > 0 && !Odd(Slashes(s, k)))
    ensures Next(false, s, k, r).mode == Next(true, s, k, q).mode
    ensures k + 1 < |s| ==> Agree(s, k + 1, Next(false, s, k, r), Next(true, s, k, q))
  {
    hide Slashes, Next, Odd;
    assert r == q == Lex(r.mode, false) && !Odd(Slashes(s, k));
    if s[k] == '\\' { AgreeSlash(s, k, r.mode); } else { AgreePlainChar(s, k, r.mode); }
  }

  lemma AgreeNext(s: string, k: nat, r: Lex, q: Lex)
    requires k < |s| && Agree(s, k, r, q)
    requires !(OwnQuote(r.mode, s[k]) && Slashes(s, k) > 0 && !Odd(Slashes(s, k)))
    ensures Next(false, s, k, r).mode == Next(true, s, k, q).mode
    ensures k + 1 < |s| ==> Agree(s, k + 1, Next(false, s, k, r), Next(true, s, k, q))
  {
    hide Next, Slashes, Odd;
    if !Quoted(r.mode) {
      AgreeOutside(s, k, r);
    } else if q.inside {
      AgreeInside(s, k, r, q);
    } else {
      AgreeRead(s, k, r, q);
    }
  }

  /** Up to the first misread quote the lexers agree. */
  lemma {:induction false} AgreeUpTo(s: string, k: nat)
    requires k <= |s| && forall j :: 0 <= j < k ==> !Misread(s, j)
    ensures ModeAt(false, s, k) == ModeAt(true, s, k)
    ensures k < |s| ==> Agree(s, k, LexAt(false, s, k), LexAt(true, s, k))
  {
    hide Next, Slashes, Agree;
    if k == 0 {
      if 0 < |s| { AgreeStart(s); }
    } else {
      AgreeUpTo(s, k - 1);
      assert !Misread(s, k - 1);
      AgreeNext(s, k - 1, LexAt(false, s, k - 1), LexAt(true, s, k - 1));
    }
  }

  lemma AgreeStart(s: string)
    requires |s| > 0
    ensures Agree(s, 0, Lex(Plain, false), Lex(Plain, false))
  {
  }

  // ----- a misread quote parts them -----------------------------------------------------------

  /** How many single quotes stand from a position on. */
  function Quotes(s: string, k: nat): (n: nat)
    requires k <= |s|
    ensures k + n <= |s| && forall j :: k <= j < k + n ==> s[j] == '\''
    ensures k + n < |s| ==> s[k + n] != '\''
    decreases |s| - k
  {
    if k < |s| && s[k] == '\'' then 1 + Quotes(s, k + 1) else 0
  }

  /** Inside a literal, unread quotes pair up: an even run stays inside, an odd one
      leaves it. */
  lemma {:induction false} QuoteRun(sql: bool, s: string, k: nat)
    requires k <= |s| && LexAt(sql, s, k) == Lex(Single, false) && (sql || k == 0 || s[k - 1] != '\\')
    ensures ModeAt(sql, s, k + Quotes(s, k)) == if Quotes(s, k) % 2 == 0 then Single else Plain
    decreases |s| - k
  {
    hide OpensBlock, OpensDashes, Opened;
    var n := Quotes(s, k);
    if n >= 1 {
      assert s[k] == '\'' && n == 1 + Quotes(s, k + 1);
      if n >= 2 {
        assert s[k + 1] == '\'' && n == 2 + Quotes(s, k + 2);
        assert LexAt(sql, s, k + 1) == Lex(Single, true);
        assert LexAt(sql, s, k + 2) == Lex(Single, false);
        QuoteRun(sql, s, k + 2);
      } else {
        assert k + 1 == |s| || s[k + 1] != '\'';
        assert LexAt(sql, s, k + 1).mode == Plain;
      }
    }
  }

  lemma MisreadParts(s: string, k: nat)
    requires k < |s| && Misread(s, k) && Agree(s, k, LexAt(false, s, k), LexAt(true, s, k))
    ensures !SameModes(s)
  {
    hide OpensBlock, OpensDashes, Opened;
    SlashesNext(s, k);
    var r, q := LexAt(false, s, k), LexAt(true, s, k);
    assert !r.inside && !q.inside;
    if r.mode == Double {
      assert ModeAt(false, s, k + 1) == Double && ModeAt(true, s, k + 1) == Plain;
    } else {
      var n := Quotes(s, k);
      assert n == 1 + Quotes(s, k + 1);
      assert LexAt(false, s, k + 1) == Lex(Single, false);
      QuoteRun(false, s, k + 1);
      QuoteRun(true, s, k);
      assert ModeAt(false, s, k + n) != ModeAt(true, s, k + n);
    }
  }

  /** The lexers are in the same mode at every position if and only if no literal's own
      quote stands behind an even, non-empty run of backslashes. */
  lemma {:induction false} SameModesExactly(s: string)
    ensures SameModes(s) <==> Clean(s)
  {
    hide LexAt, Misread, Agree;
    if Clean(s) {
      forall k | 0 <= k <= |s| ensures ModeAt(false, s, k) == ModeAt(true, s, k) { AgreeUpTo(s, k); }
    } else {
      var k :| 0 <= k < |s| && Misread(s, k);
      var j := FirstMisread(s, k);
      AgreeUpTo(s, j);
      MisreadParts(s, j);
    }
  }

  lemma {:induction false} FirstMisread(s: string, k: nat) returns (j: nat)
    requires k < |s| && Misread(s, k)
    ensures j < |s| && Misread(s, j) && forall i :: 0 <= i < j ==> !Misread(s, i)
  {
    hide Misread;
    j := k;
    if i :| 0 <= i < k && Misread(s, i) { j := FirstMisread(s, i); }
  }

  // ----- the statements -------------------------------------------------------------------------

  /** One step of the runner's lexer, or one or two for an escaped character, is one
      step of SQL's. */
  lemma {:induction false} SameSplit(s: string, i: nat, mode: Mode, cur: string)
    requires Clean(s) && i <= |s|
    requires LexAt(false, s, i) == LexAt(true, s, i) == Lex(mode, false)
    ensures Split(true, s, i, mode, cur) == Split(false, s, i, mode, cur)
    decreases |s| - i
  {
    hide Emit, Misread, Move, Collected, LexAt, Slashes, Agree;
    if i < |s| {
      AgreeUpTo(s, i);
      var Advance(n, next) := Move(true, s, i, mode);
      if Cuts(s, i, mode) {
        CutMoves(s, i);
        SameSplit(s, i + 1, Plain, []);
      } else if Quoted(mode) && s[i] == '\\' && i + 1 < |s| {
        EscapeSplits(s, i, mode, cur);
        SameSplit(s, i + 2, mode, cur + s[i..i + 2]);
      } else {
        ReadMoves(s, i, mode);
        StepLands(false, s, i, mode);
        StepLands(true, s, i, mode);
        SameSplit(s, i + n, next, cur + Collected(s, i, mode, n));
      }
    }
  }

  lemma StepLands(sql: bool, s: string, i: nat, mode: Mode)
    requires i < |s| && LexAt(sql, s, i) == Lex(mode, false)
    ensures LexAt(sql, s, i + Move(sql, s, i, mode).length) == Lex(Move(sql, s, i, mode).mode, false)
  {
    hide Move;
  }

  lemma CutMoves(s: string, i: nat)
    requires i < |s| && s[i] == ';' && LexAt(false, s, i) == LexAt(true, s, i) == Lex(Plain, false)
    ensures LexAt(false, s, i + 1) == LexAt(true, s, i + 1) == Lex(Plain, false)
  {
  }

  /** A quote both lexers read has no backslash before it. */
  lemma ReadMoves(s: string, i: nat, mode: Mode)
    requires Clean(s) && i < |s| && LexAt(false, s, i) == LexAt(true, s, i) == Lex(mode, false)
    requires Agree(s, i, Lex(mode, false), Lex(mode, false))
    requires !(Quoted(mode) && s[i] == '\\' && i + 1 < |s|)
    ensures Move(true, s, i, mode) == Move(false, s, i, mode)
  {
    hide OpensBlock, OpensDashes, Opened;
    assert !Misread(s, i);
    SlashesNext(s, i);
  }

  /** An escaped pair is two ordinary characters to the runner. */
  lemma EscapeSplits(s: string, i: nat, mode: Mode, cur: string)
    requires i + 1 < |s| && Quoted(mode) && s[i] == '\\'
    requires LexAt(false, s, i) == LexAt(true, s, i) == Lex(mode, false)
    ensures LexAt(false, s, i + 2) == LexAt(true, s, i + 2) == Lex(mode, false)
    ensures Split(false, s, i, mode, cur) == Split(false, s, i + 2, mode, cur + s[i..i + 2])
    ensures Split(true, s, i, mode, cur) == Split(true, s, i + 2, mode, cur + s[i..i + 2])
  {
    hide OpensBlock, OpensDashes, Opened, Emit;
    assert Escaped(s, i + 1);
    assert Move(false, s, i, mode) == Advance(1, mode) && Move(false, s, i + 1, mode) == Advance(1, mode);
    assert (cur + s[i..i + 1]) + s[i + 1..i + 2] == cur + s[i..i + 2];
  }

  /** A text without misread quotes is split as SQL reads it. */
  lemma SameStatements(s: string)
    requires SameModes(s)
    ensures Statements(s) == SqlStatements(s)
  {
    hide Split, LexAt, Misread;
    SameModesExactly(s);
    RunnerSplits(s);
    assert LexAt(false, s, 0) == LexAt(true, s, 0) == Lex(Plain, false) by { StartLex(s); }
    SameSplit(s, 0, Plain, []);
  }

  lemma StartLex(s: string)
    ensures LexAt(false, s, 0) == LexAt(true, s, 0) == Lex(Plain, false)
  {
  }

  lemma DoubledLex(s: string)
    requires s == ['\'', '\\', '\\', '\'', ';', 'b']
    ensures Misread(s, 3)
  {
    assert LexAt(false, s, 1) == Lex(Single, false);
    assert LexAt(false, s, 2) == Lex(Single, false);
    assert LexAt(false, s, 3) == Lex(Single, false);
    assert Slashes(s, 1) == 0;
    assert Slashes(s, 2) == 1;
    assert Slashes(s, 3) == 2;
  }

  lemma OneStep(s: string, i: nat, mode: Mode, cur: string, n: nat, next: Mode, more: string)
    requires i < |s| && !Cuts(s, i, mode) && Move(true, s, i, mode) == Advance(n, next) && cur + Collected(s, i, mode, n) == more
    ensures Split(true, s, i, mode, cur) == Split(true, s, i + n, next, more)
  {
  }

  /** The smallest misread text: SQL cuts where the runner does not. */
  lemma DoubledBackslashMisread(s: string)
    requires s == ['\'', '\\', '\\', '\'', ';', 'b']
    ensures Misread(s, 3) && Statements(s) == [s] && SqlStatements(s) == [s[..4], ['b']]
  {
    hide Split, Emit, Statements, Misread;
    DoubledLex(s);
    DoubledBackslashSwallows(s);
    OneStep(s, 0, Plain, [], 1, Single, s[..1]);
    OneStep(s, 1, Single, s[..1], 2, Single, s[..3]);
    OneStep(s, 3, Single, s[..3], 1, Plain, s[..4]);
    OneStep(s, 5, Plain, [], 1, Plain, ['b']);
    CutAt(s, 4, s[..4]);
    EndAt(s, ['b']);
    KeptText(s[..4]);
    KeptText(['b']);
  }

  lemma CutAt(s: string, i: nat, cur: string)
    requires i < |s| && s[i] == ';'
    ensures Split(true, s, i, Plain, cur) == Emit(cur) + Split(true, s, i + 1, Plain, [])
  {
    hide Emit;
  }

  lemma EndAt(s: string, cur: string)
    ensures Split(true, s, |s|, Plain, cur) == Emit(cur)
  {
  }

  lemma KeptText(t: string)
    requires t != [] && !IsSpace(t[0]) && !IsSpace(t[|t| - 1]) && (t[0] == '\'' || t[0] == 'b')
    ensures Emit(t) == [t]
  {
    assert Trim(t) == t;
    forall i | 0 <= i < |SKIPPED_PREFIXES| ensures !HasPrefix(t, SKIPPED_PREFIXES[i]) {
      assert SKIPPED_PREFIXES[0][0] == 'C' && SKIPPED_PREFIXES[1][0] == 'U' && SKIPPED_PREFIXES[2][0] == 'C';
      assert SKIPPED_PREFIXES[3][0] == 'C' && SKIPPED_PREFIXES[4][0] == 'C' && SKIPPED_PREFIXES[5][0] == 'C';
    }
  }
}
