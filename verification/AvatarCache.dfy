/** The thumbnail cache: a map and a recency list, bounded in bytes and entries. */
module AvatarCache {
  import opened Bytes
  import opened Decimal

  const CACHE_BYTES: nat := 16777216
  const CACHE_ENTRIES: nat := 256

  datatype Image = Image(key: string, data: Text, contentType: string)

  // ----- the recency list -----------------------------------------------------------

  function Total(s: seq<Image>): nat {
    if s == [] then 0 else Total(s[..|s| - 1]) + |s[|s| - 1].data|
  }

  predicate Fits(s: seq<Image>) { Total(s) <= CACHE_BYTES && |s| <= CACHE_ENTRIES }

  predicate Distinct(s: seq<Image>) { forall i, j :: 0 <= i < j < |s| ==> s[i].key != s[j].key }

  /** The position of a key, or |s|. */
  function At(s: seq<Image>, key: string): (i: nat)
    ensures i <= |s| && (i < |s| ==> s[i].key == key) && forall j :: 0 <= j < i ==> s[j].key != key
  {
    if s == [] then 0
    else if s[0].key == key then 0
    else 1 + At(s[1..], key)
  }

  function Without(s: seq<Image>, key: string): seq<Image> {
    var i := At(s, key);
    if i < |s| then s[..i] + s[i + 1..] else s
  }

  function Touched(s: seq<Image>, key: string): seq<Image> {
    var i := At(s, key);
    if i < |s| then [s[i]] + Without(s, key) else s
  }

  /** Dropping least recent entries until both bounds hold. */
  function Evicted(s: seq<Image>): seq<Image> {
    if Fits(s) then s else if s == [] then [] else Evicted(s[..|s| - 1])
  }

  function Stored(s: seq<Image>, v: Image): seq<Image> {
    if |v.data| > CACHE_BYTES then s else Evicted([v] + Without(s, v.key))
  }

  lemma TotalNone()
    ensures Total([]) == 0
  {
  }

  lemma {:induction false} TotalFront(v: Image, s: seq<Image>)
    ensures Total([v] + s) == |v.data| + Total(s)
  {
    if s == [] {
      assert ([v] + s)[..0] == [];
    } else {
      assert ([v] + s)[..|s|] == [v] + s[..|s| - 1];
      TotalFront(v, s[..|s| - 1]);
    }
  }

  lemma {:induction false} TotalWithout(s: seq<Image>, i: nat)
    requires i < |s|
    ensures Total(s[..i] + s[i + 1..]) == Total(s) - |s[i].data|
  {
    var k := |s| - 1;
    if i == k {
      assert s[..i] + s[i + 1..] == s[..k];
    } else {
      TotalWithout(s[..k], i);
      assert (s[..i] + s[i + 1..])[..k - 1] == s[..k][..i] + s[..k][i + 1..];
    }
  }

  lemma {:induction false} TotalPrefix(s: seq<Image>, k: nat)
    requires k <= |s|
    ensures Total(s[..k]) <= Total(s)
  {
    if k < |s| {
      TotalPrefix(s[..|s| - 1], k);
      assert s[..|s| - 1][..k] == s[..k];
    } else {
      assert s[..k] == s;
    }
  }

  /** Eviction keeps exactly the longest prefix within both bounds. */
  lemma {:induction false} EvictsLeast(s: seq<Image>, k: nat)
    requires k <= |s|
    ensures Evicted(s) <= s && Fits(Evicted(s))
    ensures Fits(s[..k]) <==> k <= |Evicted(s)|
  {
    TotalPrefix(s, k);
    assert s[..|s|] == s;
    if !Fits(s) && s != [] {
      var front := s[..|s| - 1];
      if k < |s| {
        EvictsLeast(front, k);
        assert front[..k] == s[..k];
      } else {
        EvictsLeast(front, 0);
      }
    }
  }

  /** A stored image is at the front and is never evicted by its own insertion; the
      others keep their order and only the least recent of them go. */
  lemma StoredIsKept(s: seq<Image>, v: Image)
    requires |v.data| <= CACHE_BYTES
    ensures Stored(s, v) != [] && Stored(s, v)[0] == v
    ensures Stored(s, v)[1..] <= Without(s, v.key)
    ensures Stored(s, v)[1..] != Without(s, v.key) ==> !Fits(([v] + Without(s, v.key))[..|Stored(s, v)| + 1])
  {
    hide Evicted, Without, Total;
    TotalNone();
    var all := [v] + Without(s, v.key);
    TotalFront(v, []);
    assert all[..1] == [v] + [];
    EvictsLeast(all, 1);
    var kept := Evicted(all);
    if |kept| < |all| {
      EvictsLeast(all, |kept| + 1);
    }
    assert all[1..] == Without(s, v.key);
  }

  // ----- the cache ------------------------------------------------------------------------

  /** Map and list hold the same images. */
  predicate Agree(entries: map<string, Image>, s: seq<Image>) {
    && Distinct(s)
    && (forall i :: 0 <= i < |s| ==> s[i].key in entries && entries[s[i].key] == s[i])
    && (forall key :: key in entries ==> At(s, key) < |s|)
  }

  lemma AgreeAt(entries: map<string, Image>, s: seq<Image>, key: string)
    requires Agree(entries, s)
    ensures key in entries <==> At(s, key) < |s|
    ensures key in entries ==> s[At(s, key)] == entries[key]
  {
  }

  lemma AtUnique(s: seq<Image>, i: nat)
    requires Distinct(s) && i < |s|
    ensures At(s, s[i].key) == i
  {
  }

  lemma WithoutAt(s: seq<Image>, key: string, j: nat)
    requires At(s, key) < |s| && j < |Without(s, key)|
    ensures Without(s, key)[j] == s[if j < At(s, key) then j else j + 1]
  {
  }

  lemma WithoutKey(s: seq<Image>, key: string)
    requires Distinct(s)
    ensures forall v :: v in Without(s, key) <==> v in s && v.key != key
    ensures Distinct(Without(s, key))
  {
    hide At;
    var (i, rest) := (At(s, key), Without(s, key));
    if i < |s| {
      forall j | 0 <= j < |rest| ensures rest[j] == s[if j < i then j else j + 1] { WithoutAt(s, key, j); }
      forall v | v in s && v.key != key ensures v in rest {
        var j :| 0 <= j < |s| && s[j] == v;
        assert v == rest[if j < i then j else j - 1];
      }
    }
  }

  lemma AtMember(s: seq<Image>, v: Image)
    requires v in s
    ensures At(s, v.key) < |s|
  {
  }

  lemma AgreeWithout(entries: map<string, Image>, s: seq<Image>, key: string)
    requires Agree(entries, s)
    ensures Agree(entries - {key}, Without(s, key))
  {
    hide At, Without;
    WithoutKey(s, key);
    var rest := Without(s, key);
    forall k | k in entries - {key} ensures At(rest, k) < |rest| {
      assert s[At(s, k)] in s;
      AtMember(rest, s[At(s, k)]);
    }
    forall i | 0 <= i < |rest| ensures rest[i].key in entries - {key} && entries[rest[i].key] == rest[i] {
      assert rest[i] in rest;
    }
  }

  lemma AgreeFront(entries: map<string, Image>, s: seq<Image>, v: Image)
    requires Agree(entries, s) && v.key !in entries
    ensures Agree(entries[v.key := v], [v] + s)
  {
    var all := [v] + s;
    forall k | k in entries[v.key := v] ensures At(all, k) < |all| {
      if k == v.key { assert all[0].key == k; } else { assert all[At(s, k) + 1].key == k; }
    }
  }

  lemma AgreeDrop(entries: map<string, Image>, s: seq<Image>)
    requires Agree(entries, s) && s != []
    ensures Agree(entries - {s[|s| - 1].key}, s[..|s| - 1])
  {
    AtUnique(s, |s| - 1);
    AgreeWithout(entries, s, s[|s| - 1].key);
    assert Without(s, s[|s| - 1].key) == s[..|s| - 1];
  }

  class Cache {
    var entries: map<string, Image>
    var lru: seq<Image>
    var bytes: nat

    /** The byte count is the sum of what is held, and both bounds hold. */
    ghost predicate Valid()
      reads this
    {
      Agree(entries, lru) && bytes == Total(lru) && Fits(lru)
    }

    constructor ()
      ensures Valid() && lru == []
    {
      entries, lru, bytes := map[], [], 0;
    }

    method Get(key: string) returns (found: Option<Image>)
      requires Valid()
      modifies this
      ensures Valid() && lru == Touched(old(lru), key)
      ensures found == if At(old(lru), key) < |old(lru)| then Some(old(lru)[At(old(lru), key)]) else None
    {
      hide At, Total;
      AgreeAt(entries, lru, key);
      found := None;
      if key in entries {
        found := Some(entries[key]);
        var i := At(lru, key);
        AgreeWithout(entries, lru, key);
        AgreeFront(entries - {key}, Without(lru, key), lru[i]);
        TotalWithout(lru, i);
        TotalFront(lru[i], Without(lru, key));
        assert (entries - {key})[key := lru[i]] == entries;
        lru := [lru[i]] + (lru[..i] + lru[i + 1..]);
      }
    }

    method Put(v: Image)
      requires Valid()
      modifies this
      ensures Valid() && lru == Stored(old(lru), v)
    {
      hide At, Total, Fits, Agree;
      if |v.data| > CACHE_BYTES { return; }
      AgreeAt(entries, lru, v.key);
      AgreeWithout(entries, lru, v.key);
      if v.key in entries {
        var i := At(lru, v.key);
        TotalWithout(lru, i);
        bytes := bytes - |entries[v.key].data|;
        lru := lru[..i] + lru[i + 1..];
      }
      AgreeFront(entries - {v.key}, lru, v);
      TotalFront(v, lru);
      assert (entries - {v.key})[v.key := v] == entries[v.key := v];
      entries, lru, bytes := entries[v.key := v], [v] + lru, bytes + |v.data|;
      EvictLoop();
    }

    /** Drops from the back of the list until both bounds hold. */
    method EvictLoop()
      requires Agree(entries, lru) && bytes == Total(lru)
      modifies this
      ensures Valid() && lru == Evicted(old(lru))
    {
      hide Agree;
      while bytes > CACHE_BYTES || |lru| > CACHE_ENTRIES
        invariant Agree(entries, lru) && bytes == Total(lru) && Evicted(lru) == Evicted(old(lru))
        decreases |lru|
      {
        var last := lru[|lru| - 1];
        AgreeDrop(entries, lru);
        entries, bytes, lru := entries - {last.key}, bytes - |last.data|, lru[..|lru| - 1];
      }
    }
  }

  /** A hit moves its image to the front and loses none. */
  lemma TouchKeepsAll(s: seq<Image>, key: string)
    requires Distinct(s)
    ensures forall v :: v in Touched(s, key) <==> v in s
    ensures At(s, key) < |s| ==> Touched(s, key)[0] == s[At(s, key)] && Touched(s, key)[1..] == Without(s, key)
  {
    hide At, Without;
    WithoutKey(s, key);
    var i := At(s, key);
    if i < |s| {
      forall v | v in s ensures v in Touched(s, key) {
        var j :| 0 <= j < |s| && s[j] == v;
        if v.key == key { assert j == i; }
      }
    }
  }

  // ----- runs --------------------------------------------------------------------------------

  datatype Op = GetOp(key: string) | PutOp(image: Image)

  function Apply(s: seq<Image>, op: Op): seq<Image> {
    match op
    case GetOp(key) => Touched(s, key)
    case PutOp(image) => Stored(s, image)
  }

  function After(ops: seq<Op>): seq<Image> {
    if ops == [] then [] else Apply(After(ops[..|ops| - 1]), ops[|ops| - 1])
  }

  /** The last image put under a key that was not refused for its size. */
  function LastPut(ops: seq<Op>, key: string): Option<Image> {
    if ops == [] then None else
      var op := ops[|ops| - 1];
      if op.PutOp? && op.image.key == key && |op.image.data| <= CACHE_BYTES then Some(op.image)
      else LastPut(ops[..|ops| - 1], key)
  }

  lemma ApplyMembers(s: seq<Image>, op: Op, v: Image)
    requires Distinct(s) && v in Apply(s, op)
    ensures if op.PutOp? && op.image.key == v.key && |op.image.data| <= CACHE_BYTES then v == op.image else v in s
  {
    hide At, Evicted, Total;
    if op.PutOp? && |op.image.data| <= CACHE_BYTES {
      StoredIsKept(s, op.image);
      var kept := Stored(s, op.image);
      assert kept == [kept[0]] + kept[1..];
      if v != op.image {
        assert v in Without(s, op.image.key);
        WithoutKey(s, op.image.key);
      }
    }
  }

  lemma ApplyDistinct(s: seq<Image>, op: Op)
    requires Distinct(s) && Fits(s)
    ensures Distinct(Apply(s, op)) && Fits(Apply(s, op))
  {
    hide At, Evicted, Total;
    match op
    case GetOp(key) =>
      WithoutKey(s, key);
      var i := At(s, key);
      if i < |s| {
        TotalWithout(s, i);
        TotalFront(s[i], Without(s, key));
      }
    case PutOp(image) =>
      WithoutKey(s, image.key);
      EvictsLeast([image] + Without(s, image.key), 0);
  }

  /** After any run the cache is within its bounds, and a hit is always the last image
      put under its key that was not refused. */
  lemma {:induction false} HitsAreLastPuts(ops: seq<Op>)
    ensures Distinct(After(ops)) && Fits(After(ops))
    ensures forall v :: v in After(ops) ==> LastPut(ops, v.key) == Some(v)
  {
    hide Distinct, Fits, Apply;
    if ops == [] {
      EmptyFits();
    } else {
      var front := ops[..|ops| - 1];
      HitsAreLastPuts(front);
      ApplyDistinct(After(front), ops[|ops| - 1]);
      forall v | v in After(ops) ensures LastPut(ops, v.key) == Some(v) {
        ApplyMembers(After(front), ops[|ops| - 1], v);
      }
    }
  }

  lemma EmptyFits()
    ensures Distinct([]) && Fits([])
  {
  }

  // ----- recency ---------------------------------------------------------------------------------

  predicate Uses(op: Op, key: string) {
    match op
    case GetOp(k) => k == key
    case PutOp(image) => image.key == key && |image.data| <= CACHE_BYTES
  }

  /** The number of the last operation that used a key, 0 for none. */
  function LastUse(ops: seq<Op>, key: string): (n: nat)
    ensures n <= |ops|
  {
    if ops == [] then 0
    else if Uses(ops[|ops| - 1], key) then |ops|
    else LastUse(ops[..|ops| - 1], key)
  }

  predicate ByRecency(ops: seq<Op>, s: seq<Image>) {
    forall i, j :: 0 <= i < j < |s| ==> LastUse(ops, s[i].key) > LastUse(ops, s[j].key)
  }

  lemma WithoutByRecency(ops: seq<Op>, op: Op, s: seq<Image>, key: string)
    requires ByRecency(ops, s) && Distinct(s) && forall k :: Uses(op, k) ==> k == key
    ensures ByRecency(ops + [op], Without(s, key))
  {
    hide At;
    var (rest, at) := (Without(s, key), At(s, key));
    assert (ops + [op])[..|ops|] == ops;
    WithoutKey(s, key);
    forall i, j | 0 <= i < j < |rest| ensures LastUse(ops + [op], rest[i].key) > LastUse(ops + [op], rest[j].key) {
      assert rest[i] in rest && rest[j] in rest;
      if at < |s| {
        WithoutAt(s, key, i);
        WithoutAt(s, key, j);
      }
    }
  }

  lemma FrontByRecency(ops: seq<Op>, op: Op, v: Image, rest: seq<Image>)
    requires ByRecency(ops + [op], rest) && Uses(op, v.key) && forall w :: w in rest ==> !Uses(op, w.key)
    ensures ByRecency(ops + [op], [v] + rest)
  {
    assert (ops + [op])[..|ops|] == ops;
    forall j | 0 <= j < |rest| ensures LastUse(ops + [op], rest[j].key) <= |ops| { assert rest[j] in rest; }
  }

  lemma ApplyByRecency(ops: seq<Op>, op: Op, s: seq<Image>)
    requires ByRecency(ops, s) && Distinct(s)
    ensures ByRecency(ops + [op], Apply(s, op))
  {
    hide At, Without, Evicted, Fits, LastUse;
    match op
    case GetOp(key) =>
      WithoutByRecency(ops, op, s, key);
      WithoutKey(s, key);
      if At(s, key) < |s| { FrontByRecency(ops, op, s[At(s, key)], Without(s, key)); } else { WithoutNone(s, key); }
    case PutOp(image) =>
      WithoutByRecency(ops, op, s, image.key);
      WithoutKey(s, image.key);
      if |image.data| <= CACHE_BYTES {
        FrontByRecency(ops, op, image, Without(s, image.key));
        EvictsLeast([image] + Without(s, image.key), 0);
      } else {
        UnusedByRecency(ops, op, s);
      }
  }

  lemma WithoutNone(s: seq<Image>, key: string)
    requires At(s, key) == |s|
    ensures Without(s, key) == s
  {
  }

  lemma UnusedByRecency(ops: seq<Op>, op: Op, s: seq<Image>)
    requires ByRecency(ops, s) && forall k :: !Uses(op, k)
    ensures ByRecency(ops + [op], s)
  {
    assert (ops + [op])[..|ops|] == ops;
  }

  /** The list is always in order of last use, so what eviction drops are the least
      recently used images. */
  lemma {:induction false} ListedByRecency(ops: seq<Op>)
    ensures ByRecency(ops, After(ops))
  {
    hide Apply, LastUse;
    if ops != [] {
      var front := ops[..|ops| - 1];
      assert ops == front + [ops[|ops| - 1]];
      ListedByRecency(front);
      HitsAreLastPuts(front);
      ApplyByRecency(front, ops[|ops| - 1], After(front));
    }
  }
}
