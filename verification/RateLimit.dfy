/** The in-memory sliding-window rate limiter and its bounded table of keys. */
module RateLimit {
  /** Times are instants; timestamps are the calls accepted and not yet expired. */
  datatype Record = Record(timestamps: seq<int>, lastSeen: int)

  type Records = map<string, Record>

  function Recent(ts: seq<int>, cutoff: int): seq<int> {
    if ts == [] then [] else
      var (front, t) := (Recent(ts[..|ts| - 1], cutoff), ts[|ts| - 1]);
      if t > cutoff then front + [t] else front
  }

  /** The order in which one iteration over the map visits its keys. */
  ghost predicate Enumerates(order: seq<string>, records: Records) {
    && (forall i :: 0 <= i < |order| ==> order[i] in records)
    && (forall i, j :: 0 <= i < j < |order| ==> order[i] != order[j])
    && (forall k :: k in records ==> k in order)
  }

  /** The key evictOldest settles on; the empty text means none. */
  function Oldest(order: seq<string>, records: Records): (k: string)
    requires forall i :: 0 <= i < |order| ==> order[i] in records
    ensures k == "" || k in order
  {
    if order == [] then "" else
      var (best, key) := (Oldest(order[..|order| - 1], records), order[|order| - 1]);
      if best == "" || records[key].lastSeen < records[best].lastSeen then key else best
  }

  function Kept(records: Records, key: string, cutoff: int): seq<int> {
    if key in records then Recent(records[key].timestamps, cutoff) else []
  }

  /** The table after making room for a call of `key`. */
  function Settled(records: Records, maxEntries: int, key: string, order: seq<string>): Records
    requires forall i :: 0 <= i < |order| ==> order[i] in records
  {
    if key in records || |records| < maxEntries then records
    else records - (if Oldest(order, records) == "" then {} else {Oldest(order, records)})
  }

  class Limiter {
    var records: Records
    const maxEntries: int

    constructor (maxEntries: int)
      ensures records == map[] && this.maxEntries == maxEntries
    {
      records, this.maxEntries := map[], maxEntries;
    }

    method EvictOldest(order: seq<string>)
      requires Enumerates(order, records)
      modifies this
      ensures records == old(records) - (if Oldest(order, old(records)) == "" then {} else {Oldest(order, old(records))})
    {
      hide Oldest, Enumerates;
      var (oldestKey, oldestTime) := ("", 0);
      NoneOldest(records);
      assert forall i :: 0 <= i < |order| ==> order[i] in records by { ListsRecords(order, records); }
      for i := 0 to |order|
        invariant records == old(records) && oldestKey == Oldest(order[..i], records)
        invariant oldestKey != "" ==> oldestTime == records[oldestKey].lastSeen
      {
        assert order[..i + 1] == order[..i] + [order[i]];
        OldestSnoc(order[..i], order[i], records);
        if oldestKey == "" || records[order[i]].lastSeen < oldestTime {
          oldestKey, oldestTime := order[i], records[order[i]].lastSeen;
        }
      }
      assert order[..|order|] == order;
      if oldestKey != "" { records := records - {oldestKey}; }
    }

    /** Accepts a call when fewer than `limit` accepted ones are younger than the window. */
    method Allow(key: string, limit: int, window: int, now: int, order: seq<string>) returns (ok: bool)
      requires Enumerates(order, records)
      modifies this
      ensures var valid := Kept(old(records), key, now - window);
              && ok == (|valid| < limit)
              && records == Settled(old(records), maxEntries, key, order)[key := Record(if ok then valid + [now] else valid, now)]
    {
      var cutoff := now - window;
      var timestamps := if key in records then records[key].timestamps else [];
      if key !in records && |records| >= maxEntries { EvictOldest(order); }
      var valid := [];
      for i := 0 to |timestamps|
        invariant valid == Recent(timestamps[..i], cutoff) && records == Settled(old(records), maxEntries, key, order)
      {
        assert timestamps[..i + 1][..i] == timestamps[..i];
        if timestamps[i] > cutoff { valid := valid + [timestamps[i]]; }
      }
      assert timestamps[..|timestamps|] == timestamps;
      if |valid| >= limit {
        records := records[key := Record(valid, now)];
        return false;
      }
      valid := valid + [now];
      records := records[key := Record(valid, now)];
      ok := true;
    }
  }

  lemma NoneOldest(records: Records)
    ensures Oldest([], records) == ""
  {
  }

  lemma ListsRecords(order: seq<string>, records: Records)
    requires Enumerates(order, records)
    ensures forall i :: 0 <= i < |order| ==> order[i] in records
  {
  }

  // ----- what eviction removes -------------------------------------------------------

  /** Without an empty key the eviction takes a least recently seen record. */
  lemma {:induction false} OldestIsLeast(order: seq<string>, records: Records)
    requires forall i :: 0 <= i < |order| ==> order[i] in records
    requires order != [] && "" !in order
    ensures Oldest(order, records) != "" && Oldest(order, records) in order
    ensures forall k :: k in order ==> records[Oldest(order, records)].lastSeen <= records[k].lastSeen
  {
    var front := order[..|order| - 1];
    assert order == front + [order[|order| - 1]];
    if front != [] { OldestIsLeast(front, records); }
  }

  ghost predicate EmptyIsLeast(records: Records) {
    "" in records && forall k :: k in records && k != "" ==> records[""].lastSeen < records[k].lastSeen
  }

  /** Some iteration order evicts nothing exactly when the table is empty or its
      strictly least recently seen key is the empty text. */
  lemma NothingEvicted(records: Records)
    ensures (exists order :: Enumerates(order, records) && Oldest(order, records) == "")
       <==> records == map[] || EmptyIsLeast(records)
  {
    hide Oldest, EmptyIsLeast;
    if order :| Enumerates(order, records) && Oldest(order, records) == "" {
      if records != map[] { EmptyLast(order, records); }
    }
    if records == map[] {
      NoneListed();
    } else if EmptyIsLeast(records) {
      var order := EmptyCanBeLast(records);
    }
  }

  lemma NoneListed()
    ensures Enumerates([], map[]) && Oldest([], map[]) == ""
  {
  }

  lemma EmptyCanBeLast(records: Records) returns (order: seq<string>)
    requires EmptyIsLeast(records)
    ensures Enumerates(order, records) && Oldest(order, records) == ""
  {
    var rest := Listed(records.Keys - {""});
    order := rest + [""];
    ListedEnumerates(records, rest);
    assert order[..|rest|] == rest;
    forall i | 0 <= i < |rest| ensures rest[i] in records { assert rest[i] in rest; }
    if rest != [] { OldestIsLeast(rest, records); }
  }

  lemma EmptyLast(order: seq<string>, records: Records)
    requires Enumerates(order, records) && Oldest(order, records) == "" && records != map[]
    ensures EmptyIsLeast(records)
  {
    hide Oldest, EmptyIsLeast;
    var k0 :| k0 in records;
    var (front, key) := (order[..|order| - 1], order[|order| - 1]);
    assert order == front + [key];
    EmptyLastParts(front, key, records);
  }

  lemma EmptyLastParts(front: seq<string>, key: string, records: Records)
    requires Enumerates(front + [key], records) && Oldest(front + [key], records) == ""
    ensures EmptyIsLeast(records)
  {
    hide Oldest;
    var order := front + [key];
    assert order[|front|] == key && forall i :: 0 <= i < |front| ==> front[i] == order[i];
    OldestSnoc(front, key, records);
    assert key == "" && "" !in front;
    if front != [] { OldestIsLeast(front, records); }
  }

  lemma OldestSnoc(front: seq<string>, key: string, records: Records)
    requires key in records && forall i :: 0 <= i < |front| ==> front[i] in records
    ensures var best := Oldest(front, records);
            Oldest(front + [key], records) == if best == "" || records[key].lastSeen < records[best].lastSeen then key else best
  {
    assert (front + [key])[..|front|] == front;
  }

  ghost function Listed(s: set<string>): (r: seq<string>)
    ensures forall k :: k in r <==> k in s
    ensures forall i, j :: 0 <= i < j < |r| ==> r[i] != r[j]
  {
    if s == {} then [] else
      var k := Pick(s);
      Listed(s - {k}) + [k]
  }

  ghost function Pick(s: set<string>): (k: string)
    requires s != {}
    ensures k in s
  {
    var k :| k in s; k
  }

  lemma ListedEnumerates(records: Records, rest: seq<string>)
    requires "" in records && forall k :: k in rest <==> k in records && k != ""
    requires forall i, j :: 0 <= i < j < |rest| ==> rest[i] != rest[j]
    ensures Enumerates(rest + [""], records)
  {
    var order := rest + [""];
    forall i | 0 <= i < |order| ensures order[i] in records { assert i < |rest| ==> rest[i] in rest; }
    forall k | k in records ensures k in order { assert k in rest || k == ""; }
  }

  // ----- runs -------------------------------------------------------------------------------

  /** One call, with the iteration order an eviction in it would see. */
  datatype Call = Call(key: string, now: int, order: seq<string>)

  /** A limiter whose calls all use one limit and window. */
  datatype Config = Config(maxEntries: int, limit: int, window: int)

  predicate Listable(records: Records, c: Call) { forall i :: 0 <= i < |c.order| ==> c.order[i] in records }

  function Step(cfg: Config, records: Records, c: Call): Records {
    var valid := Kept(records, c.key, c.now - cfg.window);
    if !Listable(records, c) then records
    else Settled(records, cfg.maxEntries, c.key, c.order)[c.key := Record(if |valid| < cfg.limit then valid + [c.now] else valid, c.now)]
  }

  function After(cfg: Config, calls: seq<Call>): Records {
    if calls == [] then map[] else Step(cfg, After(cfg, calls[..|calls| - 1]), calls[|calls| - 1])
  }

  /** Whether the last call was accepted. */
  predicate Accepted(cfg: Config, calls: seq<Call>)
    requires calls != []
  {
    var c := calls[|calls| - 1];
    |Kept(After(cfg, calls[..|calls| - 1]), c.key, c.now - cfg.window)| < cfg.limit
  }

  /** The clock is monotone and every iteration order is one of the table. */
  ghost predicate Proper(cfg: Config, calls: seq<Call>) {
    calls == [] ||
    var (front, c) := (calls[..|calls| - 1], calls[|calls| - 1]);
    && Proper(cfg, front) && Enumerates(c.order, After(cfg, front))
    && forall d :: d in front ==> d.now <= c.now
  }

  /** The accepted calls of a key since it was last evicted. */
  function History(cfg: Config, calls: seq<Call>, key: string): seq<int> {
    if calls == [] then [] else
      var (front, c) := (calls[..|calls| - 1], calls[|calls| - 1]);
      var before := if key in After(cfg, front) && (key == c.key || key in After(cfg, calls)) then History(cfg, front, key) else [];
      if c.key == key && Accepted(cfg, calls) then before + [c.now] else before
  }

  /** All accepted calls of a key. */
  function AcceptedTimes(cfg: Config, calls: seq<Call>, key: string): seq<int> {
    if calls == [] then [] else
      var (front, c) := (AcceptedTimes(cfg, calls[..|calls| - 1], key), calls[|calls| - 1]);
      if c.key == key && Accepted(cfg, calls) then front + [c.now] else front
  }

  lemma {:induction false} RecentTwice(ts: seq<int>, a: int, b: int)
    requires a <= b
    ensures Recent(Recent(ts, a), b) == Recent(ts, b)
  {
    if ts != [] {
      var (front, t) := (ts[..|ts| - 1], ts[|ts| - 1]);
      RecentTwice(front, a, b);
      var kept := Recent(front, a);
      assert (kept + [t])[..|kept|] == kept;
    }
  }

  lemma RecentSnoc(ts: seq<int>, t: int, cutoff: int)
    ensures Recent(ts + [t], cutoff) == if t > cutoff then Recent(ts, cutoff) + [t] else Recent(ts, cutoff)
  {
    assert (ts + [t])[..|ts|] == ts;
  }

  /** Two lists of times agree on everything later than `from`. */
  ghost predicate Same(ts: seq<int>, history: seq<int>, from: int) {
    forall cutoff :: cutoff >= from ==> Recent(ts, cutoff) == Recent(history, cutoff)
  }

  lemma SameAfterCall(ts: seq<int>, history: seq<int>, from: int, now: int, window: int, limit: int)
    requires Same(ts, history, from) && from <= now - window
    ensures var valid := Recent(ts, now - window);
            if |valid| < limit then Same(valid + [now], history + [now], now - window) else Same(valid, history, now - window)
  {
    var valid := Recent(ts, now - window);
    forall cutoff | cutoff >= now - window
      ensures Recent(valid, cutoff) == Recent(history, cutoff)
      ensures Recent(valid + [now], cutoff) == Recent(history + [now], cutoff)
    {
      RecentTwice(ts, now - window, cutoff);
      RecentSnoc(valid, now, cutoff);
      RecentSnoc(history, now, cutoff);
    }
  }

  /** A record agrees with its key's history on all that can still count. */
  ghost predicate Tracks(cfg: Config, calls: seq<Call>, key: string) {
    var records := After(cfg, calls);
    if key in records then
      && (exists c :: c in calls && c.now == records[key].lastSeen)
      && Same(records[key].timestamps, History(cfg, calls, key), records[key].lastSeen - cfg.window)
    else History(cfg, calls, key) == []
  }

  lemma KeptIsRecent(cfg: Config, calls: seq<Call>, key: string, now: int)
    requires Tracks(cfg, calls, key) && forall d :: d in calls ==> d.now <= now
    ensures Kept(After(cfg, calls), key, now - cfg.window) == Recent(History(cfg, calls, key), now - cfg.window)
  {
    hide History, After;
  }

  lemma StepAt(cfg: Config, records: Records, c: Call, key: string)
    requires Listable(records, c)
    ensures var (after, valid) := (Step(cfg, records, c), Kept(records, c.key, c.now - cfg.window));
            if key == c.key then
              key in after && after[key] == Record(if |valid| < cfg.limit then valid + [c.now] else valid, c.now)
            else key in after ==> key in records && after[key] == records[key]
  {
    hide Oldest, Recent;
  }

  lemma SameNone(from: int)
    ensures Same([], [], from)
  {
  }

  lemma AfterSnoc(cfg: Config, front: seq<Call>, c: Call, key: string)
    ensures After(cfg, front + [c]) == Step(cfg, After(cfg, front), c)
    ensures Accepted(cfg, front + [c]) <==> |Kept(After(cfg, front), c.key, c.now - cfg.window)| < cfg.limit
    ensures History(cfg, front + [c], key) ==
            var before := if key in After(cfg, front) && (key == c.key || key in After(cfg, front + [c])) then History(cfg, front, key) else [];
            if c.key == key && Accepted(cfg, front + [c]) then before + [c.now] else before
  {
    hide Step, Kept;
    assert (front + [c])[..|front|] == front;
  }

  lemma ProperSnoc(cfg: Config, front: seq<Call>, c: Call)
    requires Proper(cfg, front + [c])
    ensures Proper(cfg, front) && Listable(After(cfg, front), c) && forall d :: d in front ==> d.now <= c.now
  {
    assert (front + [c])[..|front|] == front;
  }

  lemma OwnCallTracks(cfg: Config, front: seq<Call>, c: Call)
    requires Proper(cfg, front + [c]) && Tracks(cfg, front, c.key)
    ensures Tracks(cfg, front + [c], c.key)
  {
    hide Oldest, Recent, Same, Step, After, History, Accepted, Proper;
    var (calls, records) := (front + [c], After(cfg, front));
    assert c in calls;
    ProperSnoc(cfg, front, c);
    AfterSnoc(cfg, front, c, c.key);
    StepAt(cfg, records, c, c.key);
    if c.key in records {
      var d :| d in front && d.now == records[c.key].lastSeen;
      SameAfterCall(records[c.key].timestamps, History(cfg, front, c.key), d.now - cfg.window, c.now, cfg.window, cfg.limit);
    } else {
      SameNone(c.now - cfg.window);
      RecentNone(c.now - cfg.window);
      SameAfterCall([], [], c.now - cfg.window, c.now, cfg.window, cfg.limit);
    }
  }

  lemma RecentNone(cutoff: int)
    ensures Recent([], cutoff) == []
  {
  }

  lemma OtherCallTracks(cfg: Config, front: seq<Call>, c: Call, key: string)
    requires Proper(cfg, front + [c]) && Tracks(cfg, front, key) && key != c.key
    ensures Tracks(cfg, front + [c], key)
  {
    hide Oldest, Recent, Same, Step, After, History, Accepted, Proper;
    var (calls, records) := (front + [c], After(cfg, front));
    ProperSnoc(cfg, front, c);
    AfterSnoc(cfg, front, c, key);
    StepAt(cfg, records, c, key);
    assert forall d :: d in front ==> d in calls;
  }

  lemma {:induction false} RecordsTrack(cfg: Config, calls: seq<Call>, key: string)
    requires Proper(cfg, calls)
    ensures Tracks(cfg, calls, key)
  {
    hide Step, Same;
    if calls != [] {
      var (front, c) := (calls[..|calls| - 1], calls[|calls| - 1]);
      RecordsTrack(cfg, front, key);
      assert calls == front + [c];
      if key == c.key { OwnCallTracks(cfg, front, c); } else { OtherCallTracks(cfg, front, c, key); }
    }
  }

  /** A call is accepted exactly when fewer than `limit` calls of its key were accepted
      in the window before it, since the key was last evicted. */
  lemma AcceptsExactly(cfg: Config, front: seq<Call>, c: Call)
    requires Proper(cfg, front + [c])
    ensures Accepted(cfg, front + [c]) <==> |Recent(History(cfg, front, c.key), c.now - cfg.window)| < cfg.limit
  {
    hide After, History, Recent, Tracks, Kept;
    var calls := front + [c];
    assert calls[..|front|] == front;
    RecordsTrack(cfg, front, c.key);
    KeptIsRecent(cfg, front, c.key, c.now);
  }

  /** A key that is never evicted is judged by all its accepted calls. */
  ghost predicate NeverEvicted(cfg: Config, calls: seq<Call>, key: string) {
    forall i :: 0 <= i < |calls| && key in After(cfg, calls[..i]) ==> key in After(cfg, calls[..i + 1])
  }

  lemma {:induction false} HistoryIsAll(cfg: Config, calls: seq<Call>, key: string)
    requires Proper(cfg, calls) && NeverEvicted(cfg, calls, key)
    ensures History(cfg, calls, key) == AcceptedTimes(cfg, calls, key)
  {
    hide Step, Accepted;
    if calls != [] {
      var (front, c) := (calls[..|calls| - 1], calls[|calls| - 1]);
      assert calls[..|front| + 1] == calls && calls[..|front|] == front;
      forall i | 0 <= i < |front| && key in After(cfg, front[..i]) ensures key in After(cfg, front[..i + 1]) {
        assert front[..i] == calls[..i] && front[..i + 1] == calls[..i + 1];
      }
      HistoryIsAll(cfg, front, key);
      RecordsTrack(cfg, front, key);
    }
  }

  /** For a never-evicted key the limiter refuses exactly when `limit` calls were
      already accepted in the last window. */
  lemma SlidingWindow(cfg: Config, front: seq<Call>, c: Call)
    requires Proper(cfg, front + [c]) && NeverEvicted(cfg, front, c.key)
    ensures Accepted(cfg, front + [c]) <==> |Recent(AcceptedTimes(cfg, front, c.key), c.now - cfg.window)| < cfg.limit
  {
    hide Accepted, History, AcceptedTimes, Recent, NeverEvicted;
    AcceptsExactly(cfg, front, c);
    assert (front + [c])[..|front|] == front;
    HistoryIsAll(cfg, front, c.key);
  }

  /** How many times lie less than a window before an instant. */
  function CountWithin(ts: seq<int>, now: int, window: int): nat {
    if ts == [] then 0 else CountWithin(ts[..|ts| - 1], now, window) + if now - ts[|ts| - 1] < window then 1 else 0
  }

  lemma {:induction false} RecentCounts(ts: seq<int>, now: int, window: int)
    ensures |Recent(ts, now - window)| == CountWithin(ts, now, window)
  {
    if ts != [] { RecentCounts(ts[..|ts| - 1], now, window); }
  }

  /** In plain words: a call of a never-evicted key is accepted exactly when fewer than
      `limit` of its accepted calls lie less than the window before it. */
  lemma RefusedAtLimit(cfg: Config, front: seq<Call>, c: Call)
    requires Proper(cfg, front + [c]) && NeverEvicted(cfg, front, c.key)
    ensures Accepted(cfg, front + [c]) <==> CountWithin(AcceptedTimes(cfg, front, c.key), c.now, cfg.window) < cfg.limit
  {
    hide Accepted, AcceptedTimes, Recent, NeverEvicted, CountWithin, Proper, After;
    SlidingWindow(cfg, front, c);
    RecentCounts(AcceptedTimes(cfg, front, c.key), c.now, cfg.window);
  }

  // ----- the bound ------------------------------------------------------------------------------

  /** With room for at least one key and no empty key, the table never outgrows its bound. */
  lemma {:induction false} TableBounded(cfg: Config, calls: seq<Call>)
    requires Proper(cfg, calls) && cfg.maxEntries >= 1 && forall c :: c in calls ==> c.key != ""
    ensures |After(cfg, calls)| <= cfg.maxEntries && "" !in After(cfg, calls)
  {
    hide Oldest, Kept;
    if calls != [] {
      var (front, c) := (calls[..|calls| - 1], calls[|calls| - 1]);
      assert calls == front + [c];
      TableBounded(cfg, front);
      StepBounded(cfg, After(cfg, front), c);
    }
  }

  lemma StepBounded(cfg: Config, records: Records, c: Call)
    requires Enumerates(c.order, records) && cfg.maxEntries >= 1 && c.key != ""
    requires |records| <= cfg.maxEntries && "" !in records
    ensures |Step(cfg, records, c)| <= cfg.maxEntries && "" !in Step(cfg, records, c)
  {
    hide Oldest, Kept;
    var settled := Settled(records, cfg.maxEntries, c.key, c.order);
    if c.key !in records && |records| >= cfg.maxEntries {
      var some :| some in records;
      assert some in c.order;
      OldestIsLeast(c.order, records);
      SizeWithout(records, Oldest(c.order, records));
    }
    SizeWith(settled, c.key, if |Kept(records, c.key, c.now - cfg.window)| < cfg.limit
                             then Record(Kept(records, c.key, c.now - cfg.window) + [c.now], c.now)
                             else Record(Kept(records, c.key, c.now - cfg.window), c.now));
  }

  lemma SizeWithout(records: Records, key: string)
    requires key in records
    ensures |records - {key}| == |records| - 1
  {
    assert (records - {key}).Keys == records.Keys - {key};
    assert |records| == |records.Keys| && |records - {key}| == |(records - {key}).Keys|;
  }

  lemma SizeWith(records: Records, key: string, r: Record)
    ensures |records[key := r]| == if key in records then |records| else |records| + 1
  {
    assert records[key := r].Keys == records.Keys + {key};
    assert |records| == |records.Keys| && |records[key := r]| == |records[key := r].Keys|;
  }

  lemma OneCall(cfg: Config, c: Call)
    requires c.order == []
    ensures Proper(cfg, [c]) && After(cfg, [c]).Keys == {c.key} && |After(cfg, [c])| == 1
  {
    hide Kept;
    assert [c][..0] == [];
    assert After(cfg, [c]) == map[c.key := After(cfg, [c])[c.key]];
  }

  // ----- an empty key that stays the oldest -----------------------------------------------------

  /** Different keys, none of them empty. */
  function Name(i: nat): (k: string)
    ensures |k| == i + 1
  {
    seq(i + 1, _ => 'k')
  }

  function NamesTo(n: nat): (names: seq<string>)
    ensures |names| == n && forall i :: 0 <= i < n ==> names[i] == Name(i)
  {
    seq(n, i requires 0 <= i < n => Name(i))
  }

  lemma NamesDiffer(n: nat)
    ensures Name(n) != "" && "" !in NamesTo(n) && Name(n) !in NamesTo(n)
    ensures NamesTo(n + 1) == NamesTo(n) + [Name(n)]
  {
    forall i | 0 <= i < n ensures NamesTo(n)[i] != Name(n) && NamesTo(n)[i] != "" { assert |Name(i)| == i + 1; }
  }

  /** One call with an empty key, then n calls with other keys. Each iteration order
      visits the empty key last. */
  function Crowd(n: nat): (calls: seq<Call>)
    ensures |calls| == n + 1
  {
    if n == 0 then [Call("", 0, [])] else Crowd(n - 1) + [Call(Name(n - 1), n, NamesTo(n - 1) + [""])]
  }

  /** The table holds the empty key, last seen at 0, and these later ones. */
  ghost predicate Crowded(records: Records, names: seq<string>) {
    && "" in records && records[""].lastSeen == 0 && |records| == |names| + 1
    && (forall k :: k in names <==> k in records && k != "")
    && (forall k :: k in records && k != "" ==> records[k].lastSeen > 0)
    && (forall i, j :: 0 <= i < j < |names| ==> names[i] != names[j])
  }

  lemma CrowdOrder(records: Records, names: seq<string>)
    requires Crowded(records, names)
    ensures Enumerates(names + [""], records) && Oldest(names + [""], records) == ""
  {
    hide Oldest;
    ListedEnumerates(records, names);
    forall i | 0 <= i < |names| ensures names[i] in records { assert names[i] in names; }
    if names != [] { OldestIsLeast(names, records); }
    OldestSnoc(names, "", records);
  }

  lemma CrowdStep(cfg: Config, records: Records, names: seq<string>, c: Call)
    requires Crowded(records, names) && c.order == names + [""] && c.key != "" && c.key !in names && c.now > 0
    ensures Enumerates(c.order, records) && Crowded(Step(cfg, records, c), names + [c.key])
  {
    hide Oldest, Kept;
    CrowdOrder(records, names);
    assert records - {} == records;
    var after := Step(cfg, records, c);
    assert after == records[c.key := after[c.key]];
    SizeWith(records, c.key, after[c.key]);
    hide Step, Settled, Enumerates;
    forall k ensures k in names + [c.key] <==> k in after && k != "" { assert k in names + [c.key] <==> k in names || k == c.key; }
  }

  /** With an empty key the table can grow past every bound: nothing is ever evicted
      while that key is the oldest and visited last. */
  lemma {:induction false} EmptyKeyGrows(cfg: Config, n: nat)
    ensures Proper(cfg, Crowd(n)) && |After(cfg, Crowd(n))| == n + 1
    ensures Crowded(After(cfg, Crowd(n)), NamesTo(n))
  {
    hide Step, Enumerates, Name, NamesTo, Accepted, History;
    if n == 0 {
      OneCall(cfg, Call("", 0, []));
      FirstOfCrowd(cfg);
      assert NamesTo(0) == [];
    } else {
      var front, c := Crowd(n - 1), Call(Name(n - 1), n, NamesTo(n - 1) + [""]);
      EmptyKeyGrows(cfg, n - 1);
      NamesDiffer(n - 1);
      CrowdStep(cfg, After(cfg, front), NamesTo(n - 1), c);
      AfterSnoc(cfg, front, c, c.key);
      CrowdTimes(n - 1);
      ProperGrows(cfg, front, c);
    }
  }

  lemma ProperGrows(cfg: Config, front: seq<Call>, c: Call)
    requires Proper(cfg, front) && Enumerates(c.order, After(cfg, front)) && forall d :: d in front ==> d.now <= c.now
    ensures Proper(cfg, front + [c])
  {
    hide Enumerates, After;
    assert (front + [c])[..|front|] == front;
  }

  lemma FirstOfCrowd(cfg: Config)
    ensures Crowded(After(cfg, [Call("", 0, [])]), [])
  {
    hide Kept;
    var c := Call("", 0, []);
    OneCall(cfg, c);
    assert [c][..0] == [];
    assert c.key in After(cfg, [c]);
  }

  lemma {:induction false} CrowdTimes(n: nat)
    ensures forall d :: d in Crowd(n) ==> d.now <= n
  {
    hide Name, NamesTo;
    if n > 0 { CrowdTimes(n - 1); }
  }

  /** Both conditions of the bound are needed: without room the first call already
      exceeds it, and with an empty key every bound is exceeded. */
  lemma BoundNeedsBoth(cfg: Config, key: string)
    ensures cfg.maxEntries < 1 ==> Proper(cfg, [Call(key, 0, [])]) && |After(cfg, [Call(key, 0, [])])| > cfg.maxEntries
    ensures cfg.maxEntries >= 1 ==>
              Proper(cfg, Crowd(cfg.maxEntries)) && |After(cfg, Crowd(cfg.maxEntries))| > cfg.maxEntries
  {
    OneCall(cfg, Call(key, 0, []));
    if cfg.maxEntries >= 1 { EmptyKeyGrows(cfg, cfg.maxEntries); }
  }
}
