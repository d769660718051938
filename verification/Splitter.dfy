/** The SQL statement splitter of the migration runner: a one-pass lexer over
    quotes and comments that cuts at top-level semicolons. */
module Splitter {

  datatype Mode = Plain | Single | Double | Back | Block | Line

  // ----- trimming and skipped statements ------------------------------------

  /** unicode.IsSpace. */
  predicate IsSpace(c: char) {
    || '\t' <= c <= '\r' || c == ' ' || c == '\U{85}' || c == '\U{A0}' || c == '\U{1680}'
    || '\U{2000}' <= c <= '\U{200A}' || c == '\U{2028}' || c == '\U{2029}' || c == '\U{202F}'
    || c == '\U{205F}' || c == '\U{3000}'
  }

  predicate AllSpace(s: string) { forall i :: 0 <= i < |s| ==> IsSpace(s[i]) }

  function TrimLeft(s: string): string {
    if s != [] && IsSpace(s[0]) then TrimLeft(s[1..]) else s
  }

  function TrimRight(s: string): string {
    if s != [] && IsSpace(s[|s| - 1]) then TrimRight(s[..|s| - 1]) else s
  }

  function Trim(s: string): string { TrimRight(TrimLeft(s)) }

  predicate Trimmed(s: string) { s != [] && !IsSpace(s[0]) && !IsSpace(s[|s| - 1]) }

  /** unicode.ToUpper as far as it can produce an ASCII letter. */
  function Upper(c: char): char {
    if 'a' <= c <= 'z' then (c as int - 32) as char
    else if c == '\U{131}' then 'I'
    else if c == '\U{17F}' then 'S'
    else c
  }

  predicate HasPrefix(s: string, p: string) {
    |p| <= |s| && forall i :: 0 <= i < |p| ==> Upper(s[i]) == p[i]
  }

  const SKIPPED_PREFIXES: seq<string> := [
    "CREATE DATABASE ", "USE ",
    "CREATE TABLE SCHEMA_MIGRATIONS ", "CREATE TABLE IF NOT EXISTS SCHEMA_MIGRATIONS ",
    "CREATE TABLE `SCHEMA_MIGRATIONS`", "CREATE TABLE IF NOT EXISTS `SCHEMA_MIGRATIONS`"]

  predicate Skipped(s: string) {
    exists i :: 0 <= i < |SKIPPED_PREFIXES| && HasPrefix(s, SKIPPED_PREFIXES[i])
  }

  /** What one cut contributes: its trimmed text unless empty or skipped. */
  function Emit(cur: string): seq<string> {
    var s := Trim(cur);
    if s == [] || Skipped(s) then [] else [s]
  }

  // ----- the lexer ------------------------------------------------------------

  predicate Breaks(c: char) { c == ' ' || c == '\t' || c == '\n' || c == '\r' }

  predicate OpensBlock(s: string, i: nat)
    requires i < |s|
  {
    s[i] == '/' && i + 1 < |s| && s[i + 1] == '*'
  }

  predicate OpensDashes(s: string, i: nat)
    requires i < |s|
  {
    s[i] == '-' && i + 1 < |s| && s[i + 1] == '-' && (i + 2 >= |s| || Breaks(s[i + 2]))
  }

  predicate Escaped(s: string, i: nat)
    requires i < |s|
  {
    i > 0 && s[i - 1] == '\\'
  }

  function Opened(c: char): Mode {
    if c == '\'' then Single else if c == '"' then Double else if c == '`' then Back else Plain
  }

  /** The statements cut from s[i..] when `cur` is already collected. */
  function Scan(s: string, i: nat, mode: Mode, cur: string): seq<string>
    requires i <= |s|
    decreases |s| - i
  {
    if i == |s| then Emit(cur)
    else
      var c := s[i];
      match mode
      case Block =>
        if c == '*' && i + 1 < |s| && s[i + 1] == '/' then Scan(s, i + 2, Plain, cur) else Scan(s, i + 1, Block, cur)
      case Line =>
        if c == '\n' || c == '\r' then Scan(s, i + 1, Plain, cur + [c]) else Scan(s, i + 1, Line, cur)
      case Plain =>
        if OpensBlock(s, i) then Scan(s, i + 2, Block, cur)
        else if c == '#' then Scan(s, i + 1, Line, cur)
        else if OpensDashes(s, i) then Scan(s, i + 2, Line, cur)
        else if c == ';' then Emit(cur) + Scan(s, i + 1, Plain, [])
        else Scan(s, i + 1, Opened(c), cur + [c])
      case Single =>
        if c == '\'' && !Escaped(s, i) then
          if i + 1 < |s| && s[i + 1] == '\'' then Scan(s, i + 2, Single, cur + [c, s[i + 1]])
          else Scan(s, i + 1, Plain, cur + [c])
        else Scan(s, i + 1, Single, cur + [c])
      case Double => Scan(s, i + 1, if c == '"' && !Escaped(s, i) then Plain else Double, cur + [c])
      case Back => Scan(s, i + 1, if c == '`' then Plain else Back, cur + [c])
  }

  function Statements(content: string): seq<string> { Scan(content, 0, Plain, []) }

  function ModeOf(single: bool, double: bool, back: bool, block: bool, line: bool): Mode {
    if block then Block else if line then Line else if single then Single
    else if double then Double else if back then Back else Plain
  }

  predicate AtMostOne(single: bool, double: bool, back: bool, block: bool, line: bool) {
    && (single ==> !double && !back && !block && !line)
    && (double ==> !back && !block && !line)
    && (back ==> !block && !line)
    && (block ==> !line)
  }

  /** The flag-driven loop. */
  method SplitStatements(content: string) returns (stmts: seq<string>)
    ensures stmts == Statements(content)
  {
    stmts := [];
    var current := [];
    var single, double, back, block, line := false, false, false, false, false;
    var i := 0;
    while i < |content|
      invariant 0 <= i <= |content|
      invariant AtMostOne(single, double, back, block, line)
      invariant stmts + Scan(content, i, ModeOf(single, double, back, block, line), current) == Statements(content)
    {
      var c := content[i];
      hide Emit;
      if block {
        if c == '*' && i + 1 < |content| && content[i + 1] == '/' {
          block := false;
          i := i + 1;
        }
        i := i + 1;
        continue;
      }
      if line {
        if c == '\n' || c == '\r' {
          line := false;
          current := current + [c];
        }
        i := i + 1;
        continue;
      }
      if !single && !double && !back {
        if c == '/' && i + 1 < |content| && content[i + 1] == '*' {
          block := true;
          i := i + 2;
          continue;
        }
        if c == '#' {
          line := true;
          i := i + 1;
          continue;
        }
        if c == '-' && i + 1 < |content| && content[i + 1] == '-' {
          if i + 2 >= |content| || Breaks(content[i + 2]) {
            line := true;
            i := i + 2;
            continue;
          }
        }
      }
      if c == '\'' && !double && !back {
        if single {
          if i > 0 && content[i - 1] == '\\' {
          } else if i + 1 < |content| && content[i + 1] == '\'' {
            current := current + [c, content[i + 1]];
            i := i + 2;
            continue;
          } else {
            single := false;
          }
        } else {
          single := true;
        }
      } else if c == '"' && !single && !back {
        if double {
          if i > 0 && content[i - 1] == '\\' {
          } else {
            double := false;
          }
        } else {
          double := true;
        }
      } else if c == '`' && !single && !double {
        back := !back;
      }
      if c == ';' && !single && !double && !back {
        assert stmts + (Emit(current) + Scan(content, i + 1, Plain, [])) == (stmts + Emit(current)) + Scan(content, i + 1, Plain, []);
        stmts := stmts + Emit(current);
        current := [];
        i := i + 1;
        continue;
      }
      current := current + [c];
      i := i + 1;
    }
    stmts := stmts + Emit(current);
  }

  // ----- well-formed statements -------------------------------------------------

  /** From position k in the given quote mode to the end: quotes close, and no ';' or
      comment opener is at top level. A quote after a backslash does not close.
      `last` says that the end of the statement is the end of the input. */
  predicate Balanced(s: string, k: nat, mode: Mode, last: bool)
    requires k <= |s|
    decreases |s| - k
  {
    if k == |s| then mode == Plain
    else
      match mode
      case Plain =>
        && s[k] != ';' && s[k] != '#' && !OpensBlock(s, k)
        && !(OpensDashes(s, k) && (k + 2 < |s| || last))
        && Balanced(s, k + 1, Opened(s[k]), last)
      case Single =>
        if s[k] == '\'' && !Escaped(s, k) then
          if k + 1 < |s| && s[k + 1] == '\'' then Balanced(s, k + 2, Single, last) else Balanced(s, k + 1, Plain, last)
        else Balanced(s, k + 1, Single, last)
      case Double => Balanced(s, k + 1, if s[k] == '"' && !Escaped(s, k) then Plain else Double, last)
      case Back => Balanced(s, k + 1, if s[k] == '`' then Plain else Back, last)
      case Block => false
      case Line => false
  }

  predicate WellFormed(s: string, last: bool) { Trimmed(s) && Balanced(s, 0, Plain, last) }

  /** A statement with the white space in front of it. */
  datatype Item = Item(lead: string, text: string)

  /** Statements one after the other, each ended by a semicolon. */
  function Written(items: seq<Item>): string {
    if items == [] then [] else items[0].lead + items[0].text + [';'] + Written(items[1..])
  }

  function Kept(items: seq<Item>): seq<string> {
    if items == [] then []
    else (if Skipped(items[0].text) then [] else [items[0].text]) + Kept(items[1..])
  }

  /** The statement t stands in s at position a and is ended by ';' or the input's end. */
  predicate Stands(s: string, a: nat, t: string) {
    && a + |t| <= |s| && s[a..a + |t|] == t
    && (a + |t| < |s| ==> s[a + |t|] == ';')
  }

  /** How far one step of the lexer goes and in which mode it continues. */
  function Stride(t: string, k: nat, mode: Mode): (nat, Mode)
    requires k < |t|
  {
    match mode
    case Plain => (1, Opened(t[k]))
    case Single =>
      if t[k] == '\'' && !Escaped(t, k) then
        if k + 1 < |t| && t[k + 1] == '\'' then (2, Single) else (1, Plain)
      else (1, Single)
    case Double => (1, if t[k] == '"' && !Escaped(t, k) then Plain else Double)
    case Back => (1, if t[k] == '`' then Plain else Back)
    case Block => (1, Block)
    case Line => (1, Line)
  }

  lemma StrideScans(s: string, a: nat, t: string, k: nat, mode: Mode, cur: string)
    requires Stands(s, a, t) && k < |t| && Balanced(t, k, mode, a + |t| == |s|)
    requires mode != Plain ==> k > 0
    ensures var (step, next) := Stride(t, k, mode);
      && k + step <= |t| && Balanced(t, k + step, next, a + |t| == |s|)
      && Scan(s, a + k, mode, cur) == Scan(s, a + k + step, next, cur + t[k..k + step])
  {
    var w := s[a..a + |t|];
    assert s[a + k] == w[k] == t[k];
    assert k > 0 ==> s[a + k - 1] == w[k - 1] == t[k - 1];
    assert k + 1 < |t| ==> s[a + k + 1] == w[k + 1] == t[k + 1];
    assert k + 2 < |t| ==> s[a + k + 2] == w[k + 2] == t[k + 2];
    assert t[k..k + 1] == [t[k]];
    assert k + 1 < |t| ==> t[k..k + 2] == [t[k], t[k + 1]];
    if mode == Plain {
      assert !OpensBlock(s, a + k) && !OpensDashes(s, a + k);
    } else {
      assert Escaped(s, a + k) == Escaped(t, k);
    }
  }

  /** Scanning the rest of a balanced statement only collects it. */
  lemma {:induction false} ScanBalanced(s: string, a: nat, t: string, k: nat, mode: Mode, cur: string)
    requires Stands(s, a, t) && k <= |t| && Balanced(t, k, mode, a + |t| == |s|)
    requires mode != Plain ==> k > 0
    ensures Scan(s, a + k, mode, cur) == Scan(s, a + |t|, Plain, cur + t[k..])
    decreases |t| - k
  {
    if k == |t| {
      assert cur + t[k..] == cur;
    } else {
      var (step, next) := Stride(t, k, mode);
      StrideScans(s, a, t, k, mode, cur);
      assert cur + t[k..] == (cur + t[k..k + step]) + t[k + step..];
      hide Scan, Balanced, Stands, Stride;
      ScanBalanced(s, a, t, k + step, next, cur + t[k..k + step]);
    }
  }

  lemma AllSpaceTail(x: string)
    requires AllSpace(x) && x != []
    ensures AllSpace(x[1..])
  {
  }

  lemma {:induction false} ScanSpace(s: string, i: nat, cur: string, n: nat)
    requires i + n <= |s| && AllSpace(s[i..i + n])
    ensures Scan(s, i, Plain, cur) == Scan(s, i + n, Plain, cur + s[i..i + n])
    decreases n
  {
    if n == 0 {
      assert cur + s[i..i] == cur;
    } else {
      var c := s[i];
      assert IsSpace(s[i..i + n][0]);
      AllSpaceTail(s[i..i + n]);
      assert s[i..i + n][1..] == s[i + 1..i + n];
      assert s[i..i + n] == [c] + s[i + 1..i + n];
      assert cur + s[i..i + n] == (cur + [c]) + s[i + 1..i + n];
      ScanSpace(s, i + 1, cur + [c], n - 1);
    }
  }

  lemma {:induction false} TrimLead(lead: string, t: string)
    requires AllSpace(lead) && (t == [] || Trimmed(t))
    ensures Trim(lead + t) == t
  {
    if lead == [] {
      assert lead + t == t;
    } else {
      assert IsSpace(lead[0]) && AllSpace(lead[1..]);
      assert (lead + t)[1..] == lead[1..] + t;
      TrimLead(lead[1..], t);
    }
  }

  /** One terminated statement is cut off whole. */
  lemma ScanItem(s: string, i: nat, it: Item)
    requires AllSpace(it.lead) && WellFormed(it.text, false)
    requires i + |it.lead| + |it.text| + 1 <= |s|
    requires s[i..i + |it.lead|] == it.lead
    requires s[i + |it.lead|..i + |it.lead| + |it.text|] == it.text
    requires s[i + |it.lead| + |it.text|] == ';'
    ensures Scan(s, i, Plain, []) ==
      (if Skipped(it.text) then [] else [it.text]) + Scan(s, i + |it.lead| + |it.text| + 1, Plain, [])
  {
    var a := i + |it.lead|;
    ScanSpace(s, i, [], |it.lead|);
    assert [] + it.lead == it.lead;
    assert it.text[0..] == it.text;
    ScanBalanced(s, a, it.text, 0, Plain, it.lead);
    TrimLead(it.lead, it.text);
  }

  lemma {:induction false} ScanItems(s: string, i: nat, items: seq<Item>)
    requires i <= |s| && Written(items) <= s[i..]
    requires forall k :: 0 <= k < |items| ==> AllSpace(items[k].lead) && WellFormed(items[k].text, false)
    ensures i + |Written(items)| <= |s|
    ensures Scan(s, i, Plain, []) == Kept(items) + Scan(s, i + |Written(items)|, Plain, [])
    decreases |items|
  {
    hide Scan, WellFormed, Skipped, AllSpace;
    if items == [] {
      assert Kept(items) + Scan(s, i, Plain, []) == Scan(s, i, Plain, []);
    } else {
      var it, more := items[0], Written(items[1..]);
      assert Written(items) == it.lead + it.text + [';'] + more;
      WrittenPrefix(s, i, it, more);
      ScanItem(s, i, it);
      ScanItems(s, i + |it.lead| + |it.text| + 1, items[1..]);
      var kept := if Skipped(it.text) then [] else [it.text];
      Associative(kept, Kept(items[1..]), Scan(s, i + |Written(items)|, Plain, []));
    }
  }

  lemma Associative<T>(a: seq<T>, b: seq<T>, c: seq<T>)
    ensures a + (b + c) == (a + b) + c
  {
  }

  lemma WrittenPrefix(s: string, i: nat, it: Item, more: string)
    requires i <= |s| && it.lead + it.text + [';'] + more <= s[i..]
    ensures i + |it.lead| + |it.text| + 1 <= |s|
    ensures s[i..i + |it.lead|] == it.lead
    ensures s[i + |it.lead|..i + |it.lead| + |it.text|] == it.text
    ensures s[i + |it.lead| + |it.text|] == ';'
    ensures more <= s[i + |it.lead| + |it.text| + 1..]
  {
    var all := it.lead + it.text + [';'] + more;
    var a, b := |it.lead|, |it.lead| + |it.text|;
    assert s[i..i + |all|] == all;
    assert s[i..i + a] == all[..a] == it.lead;
    assert s[i + a..i + b] == all[a..b] == it.text;
    assert s[i + b] == all[b];
    assert s[i + b + 1..i + |all|] == all[b + 1..] == more;
  }

  /** Round trip: splitting well-formed statements, each ended by ';' and preceded by
      any white space, with or without a final ';', gives back exactly those that the
      runner does not skip. */
  lemma SplitRoundTrip(items: seq<Item>, lead: string, last: string)
    requires forall k :: 0 <= k < |items| ==> AllSpace(items[k].lead) && WellFormed(items[k].text, false)
    requires AllSpace(lead) && (last == [] || WellFormed(last, true))
    ensures Statements(Written(items) + lead + last) ==
      Kept(items) + (if last == [] || Skipped(last) then [] else [last])
  {
    hide Scan, WellFormed, Skipped, AllSpace, Written, Kept;
    var w, tail := Written(items), lead + last;
    Associative(w, lead, last);
    var s := w + tail;
    assert s[0..] == s && w <= s;
    assert s[|w|..] == tail;
    ScanItems(s, 0, items);
    ScanTail(s, |w|, lead, last);
  }

  /** What follows the last semicolon. */
  lemma ScanTail(s: string, a: nat, lead: string, last: string)
    requires a <= |s| && s[a..] == lead + last && AllSpace(lead) && (last == [] || WellFormed(last, true))
    ensures Scan(s, a, Plain, []) == if last == [] || Skipped(last) then [] else [last]
  {
    hide Skipped, AllSpace, IsSpace;
    var b := a + |lead|;
    assert s[a..b] == s[a..][..|lead|] == lead;
    assert s[b..] == s[a..][|lead|..] == last;
    ScanSpace(s, a, [], |lead|);
    assert [] + lead == lead;
    if last == [] {
      assert lead + last == lead;
    } else {
      assert last[0..] == last;
      ScanBalanced(s, b, last, 0, Plain, lead);
    }
    TrimLead(lead, last);
  }

  /** While every quote ahead follows a backslash, the rest stays one statement. */
  lemma {:induction false} OpenQuoteSwallows(s: string, k: nat)
    requires k <= |s| && forall j :: k <= j < |s| && s[j] == '\'' ==> Escaped(s, j)
    ensures Scan(s, k, Single, s[..k]) == Emit(s)
    decreases |s| - k
  {
    if k == |s| {
      assert s[..k] == s;
    } else {
      assert s[..k + 1] == s[..k] + [s[k]];
      OpenQuoteSwallows(s, k + 1);
    }
  }

  /** Where the lexer and SQL disagree: it takes the quote after an escaped backslash
      for an escaped quote, so the semicolon behind that literal does not split. */
  lemma DoubledBackslashSwallows(s: string)
    requires s == ['\'', '\\', '\\', '\'', ';', 'b']
    ensures Statements(s) == [s]
  {
    assert s[..1] == [] + [s[0]];
    assert Statements(s) == Scan(s, 1, Single, s[..1]);
    OpenQuoteSwallows(s, 1);
    assert Trim(s) == s;
    forall i | 0 <= i < |SKIPPED_PREFIXES| ensures !HasPrefix(s, SKIPPED_PREFIXES[i]) {
      assert SKIPPED_PREFIXES[0][0] == 'C' && SKIPPED_PREFIXES[1][0] == 'U' && SKIPPED_PREFIXES[2][0] == 'C';
      assert SKIPPED_PREFIXES[3][0] == 'C' && SKIPPED_PREFIXES[4][0] == 'C' && SKIPPED_PREFIXES[5][0] == 'C';
    }
  }

  // ----- comments ---------------------------------------------------------------

  /** A block comment is passed over whole, whatever it contains. */
  lemma {:induction false} BlockSkipped(s: string, i: nat, j: nat, cur: string)
    requires i <= j && j + 1 < |s| && s[j] == '*' && s[j + 1] == '/'
    requires forall k :: i <= k < j ==> !(s[k] == '*' && s[k + 1] == '/')
    ensures Scan(s, i, Block, cur) == Scan(s, j + 2, Plain, cur)
    decreases j - i
  {
    if i < j { BlockSkipped(s, i + 1, j, cur); }
  }

  lemma BlockCommentInvisible(s: string, i: nat, j: nat, cur: string)
    requires i + 1 < |s| && s[i] == '/' && s[i + 1] == '*'
    requires i + 2 <= j && j + 1 < |s| && s[j] == '*' && s[j + 1] == '/'
    requires forall k :: i + 2 <= k < j ==> !(s[k] == '*' && s[k + 1] == '/')
    ensures Scan(s, i, Plain, cur) == Scan(s, j + 2, Plain, cur)
  {
    BlockSkipped(s, i + 2, j, cur);
  }

  lemma {:induction false} LineSkipped(s: string, i: nat, j: nat, cur: string)
    requires i <= j <= |s| && (forall k :: i <= k < j ==> s[k] != '\n' && s[k] != '\r')
    requires j < |s| ==> s[j] == '\n' || s[j] == '\r'
    ensures Scan(s, i, Line, cur) == if j < |s| then Scan(s, j + 1, Plain, cur + [s[j]]) else Emit(cur)
    decreases j - i
  {
    if i < j { LineSkipped(s, i + 1, j, cur); }
  }

  /** A line comment leaves only its line break. */
  lemma LineCommentInvisible(s: string, i: nat, j: nat, cur: string)
    requires i < |s| && (s[i] == '#' || (i + 1 < |s| && s[i] == '-' && s[i + 1] == '-'
                                         && (i + 2 == |s| || s[i + 2] in [' ', '\t', '\n', '\r'])))
    requires i + (if s[i] == '#' then 1 else 2) <= j <= |s|
    requires forall k :: i < k < j ==> s[k] != '\n' && s[k] != '\r'
    requires j < |s| ==> s[j] == '\n' || s[j] == '\r'
    ensures Scan(s, i, Plain, cur) == if j < |s| then Scan(s, j + 1, Plain, cur + [s[j]]) else Emit(cur)
  {
    LineSkipped(s, i + (if s[i] == '#' then 1 else 2), j, cur);
  }

  // ----- what else the lexer meets at top level -------------------------------------------

  /** Two dashes before anything but a blank are text. */
  lemma DashesAreText(s: string, i: nat, cur: string)
    requires i + 2 < |s| && s[i] == '-' && s[i + 1] == '-' && s[i + 2] !in [' ', '\t', '\n', '\r']
    ensures Scan(s, i, Plain, cur) == Scan(s, i + 1, Plain, cur + ['-'])
  {
  }

  /** So is any character that opens neither a comment nor a literal and ends no statement. */
  lemma OthersAreText(s: string, i: nat, cur: string)
    requires i < |s| && s[i] !in ['#', ';', '\'', '"', '`']
    requires s[i] == '/' ==> i + 1 == |s| || s[i + 1] != '*'
    requires s[i] == '-' ==> i + 1 == |s| || s[i + 1] != '-'
    ensures Scan(s, i, Plain, cur) == Scan(s, i + 1, Plain, cur + [s[i]])
  {
  }

  /** A semicolon at top level ends the statement. */
  lemma SemicolonCuts(s: string, i: nat, cur: string)
    requires i < |s| && s[i] == ';'
    ensures Scan(s, i, Plain, cur) == Emit(cur) + Scan(s, i + 1, Plain, [])
  {
  }

  /** A quote inside a literal that its last backslash keeps from closing it. */
  predicate Shielded(s: string, k: nat, q: char)
    requires 0 < k < |s|
  {
    q != '`' && s[k - 1] == '\\'
  }

  lemma {:induction false} LiteralRest(s: string, k: nat, j: nat, q: char, cur: string)
    requires 0 < k <= j < |s| && q in ['\'', '"', '`'] && s[j] == q && !Shielded(s, j, q)
    requires forall x :: k <= x < j && s[x] == q ==> Shielded(s, x, q)
    requires q == '\'' ==> j + 1 == |s| || s[j + 1] != '\''
    ensures Scan(s, k, if q == '\'' then Single else if q == '"' then Double else Back, cur) == Scan(s, j + 1, Plain, cur + s[k..j + 1])
    decreases j - k
  {
    assert s[k..j + 1] == [s[k]] + s[k + 1..j + 1];
    assert cur + s[k..j + 1] == (cur + [s[k]]) + s[k + 1..j + 1];
    if k < j {
      LiteralRest(s, k + 1, j, q, cur + [s[k]]);
    } else {
      assert s[k..j + 1] == [s[k]];
      assert Escaped(s, j) ==> q == '`';
    }
  }

  /** A literal in any of the three quotes is text as a whole, whatever it contains, up to
      its first quote that no backslash shields. */
  lemma LiteralIsText(s: string, i: nat, j: nat, cur: string)
    requires i < j < |s| && s[i] in ['\'', '"', '`'] && s[j] == s[i] && !Shielded(s, j, s[i])
    requires forall x :: i < x < j && s[x] == s[i] ==> Shielded(s, x, s[i])
    requires s[i] == '\'' ==> j + 1 == |s| || s[j + 1] != '\''
    ensures Scan(s, i, Plain, cur) == Scan(s, j + 1, Plain, cur + s[i..j + 1])
  {
    assert cur + s[i..j + 1] == (cur + [s[i]]) + s[i + 1..j + 1];
    LiteralRest(s, i + 1, j, s[i], cur + [s[i]]);
  }

  /** Trimming takes off exactly the white space around a text. */
  lemma {:induction false} TrimExactly(lead: string, t: string, trail: string)
    requires AllSpace(lead) && AllSpace(trail) && (t == [] || Trimmed(t))
    ensures Trim(lead + t + trail) == t
    decreases |trail|
  {
    if trail == [] {
      assert lead + t + trail == lead + t;
      TrimLead(lead, t);
    } else {
      var front := trail[..|trail| - 1];
      assert lead + t + trail == (lead + t + front) + [trail[|trail| - 1]];
      TrimExactly(lead, t, front);
      TrimBlank(lead + t + front, trail[|trail| - 1]);
    }
  }

  lemma {:induction false} TrimBlank(s: string, blank: char)
    requires IsSpace(blank)
    ensures Trim(s + [blank]) == Trim(s)
  {
    var padded := s + [blank];
    if s == [] {
      assert padded[1..] == [] && padded == [blank];
    } else if IsSpace(s[0]) {
      assert padded[1..] == s[1..] + [blank];
      TrimBlank(s[1..], blank);
    } else {
      assert padded[..|padded| - 1] == s;
    }
  }

  /** One character like another in capitals; two letters outside ASCII have capitals in it. */
  predicate Like(c: char, capital: char) {
    || (c == capital && !('a' <= c <= 'z') && c != '\U{131}' && c != '\U{17F}')
    || ('A' <= capital <= 'Z' && 'a' <= c <= 'z' && c as int - 'a' as int == capital as int - 'A' as int)
    || (capital == 'I' && c == '\U{131}') || (capital == 'S' && c == '\U{17F}')
  }

  predicate Begins(s: string, capitals: string) {
    |capitals| <= |s| && forall i :: 0 <= i < |capitals| ==> Like(s[i], capitals[i])
  }

  lemma BeginsExactly(s: string, p: string)
    ensures HasPrefix(s, p) <==> Begins(s, p)
  {
  }

  /** The statements the runner drops: creating or choosing a database, and creating its
      own table. */
  lemma SkippedExactly(s: string)
    ensures Skipped(s) <==>
      || Begins(s, "CREATE DATABASE ") || Begins(s, "USE ")
      || Begins(s, "CREATE TABLE SCHEMA_MIGRATIONS ") || Begins(s, "CREATE TABLE IF NOT EXISTS SCHEMA_MIGRATIONS ")
      || Begins(s, "CREATE TABLE `SCHEMA_MIGRATIONS`") || Begins(s, "CREATE TABLE IF NOT EXISTS `SCHEMA_MIGRATIONS`")
  {
    hide HasPrefix, Begins;
    BeginsExactly(s, "CREATE DATABASE ");
    BeginsExactly(s, "USE ");
    BeginsExactly(s, "CREATE TABLE SCHEMA_MIGRATIONS ");
    BeginsExactly(s, "CREATE TABLE IF NOT EXISTS SCHEMA_MIGRATIONS ");
    BeginsExactly(s, "CREATE TABLE `SCHEMA_MIGRATIONS`");
    BeginsExactly(s, "CREATE TABLE IF NOT EXISTS `SCHEMA_MIGRATIONS`");
    assert HasPrefix(s, SKIPPED_PREFIXES[0]) <==> Begins(s, "CREATE DATABASE ");
    assert HasPrefix(s, SKIPPED_PREFIXES[1]) <==> Begins(s, "USE ");
    assert HasPrefix(s, SKIPPED_PREFIXES[2]) <==> Begins(s, "CREATE TABLE SCHEMA_MIGRATIONS ");
    assert HasPrefix(s, SKIPPED_PREFIXES[3]) <==> Begins(s, "CREATE TABLE IF NOT EXISTS SCHEMA_MIGRATIONS ");
    assert HasPrefix(s, SKIPPED_PREFIXES[4]) <==> Begins(s, "CREATE TABLE `SCHEMA_MIGRATIONS`");
    assert HasPrefix(s, SKIPPED_PREFIXES[5]) <==> Begins(s, "CREATE TABLE IF NOT EXISTS `SCHEMA_MIGRATIONS`");
  }
}
