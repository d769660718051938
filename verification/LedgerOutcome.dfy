/** What a publication is answered with, said of the stored releases alone. */
module LedgerOutcome {
  import opened Bytes
  import opened Decimal
  import opened Version
  import opened Ledger
  import opened LedgerSafety

  /** The weight of a stored release's version. */
  function WeightOf(e: Entry): Option<nat> {
    match NumberOf(e)
    case None => None
    case Some(n) => Some(Weight(n))
  }

  predicate IsGreater(e: Entry, p: Platform, n: Number) {
    e.release.platform == p && WeightOf(e).Some? && WeightOf(e).value > Weight(n)
  }

  predicate IsSmaller(e: Entry, p: Platform, n: Number) {
    e.release.platform == p ==> WeightOf(e).Some? && WeightOf(e).value < Weight(n)
  }

  predicate IsStored(e: Entry, release: Release) {
    e.release.platform == release.platform && e.release.version == release.version
  }

  /** Contents or commit differ; the publication time does not count. */
  predicate Differs(e: Entry, release: Release, commit: Text) {
    e.release.details != release.details || e.commit != commit
  }

  predicate SomeGreater(entries: seq<Entry>, p: Platform, n: Number) { exists e :: e in entries && IsGreater(e, p, n) }

  predicate AllSmaller(entries: seq<Entry>, p: Platform, n: Number) { forall e :: e in entries ==> IsSmaller(e, p, n) }

  predicate SomeStored(entries: seq<Entry>, release: Release) { exists e :: e in entries && IsStored(e, release) }

  predicate SomeDiffers(entries: seq<Entry>, release: Release, commit: Text) {
    exists e :: e in entries && IsStored(e, release) && Differs(e, release, commit)
  }

  lemma NumbersFit(t: Text)
    requires ParseVersion(t).Some?
    ensures Fits(ParseVersion(t).value)
  {
    VersionExact(t, ParseVersion(t).value);
  }

  lemma EntryCompares(e: Entry, n: Number)
    requires NumberOf(e).Some? && Fits(n)
    ensures WeightOf(e) == Some(Weight(NumberOf(e).value))
    ensures Newer(NumberOf(e).value, n) <==> WeightOf(e).value > Weight(n)
    ensures NumberOf(e).value == n <==> WeightOf(e).value == Weight(n)
  {
    hide ParseVersion, Weight;
    NumbersFit(e.release.version);
    NewerIsGreater(NumberOf(e).value, n);
  }

  lemma HasChannel(db: Db, p: Platform)
    requires DbOk(db)
    ensures p in db.channels <==> exists e :: e in db.releases && Is(e, p)
    ensures p in db.channels ==>
      && db.channels[p] < |db.releases| && Is(db.releases[db.channels[p]], p)
      && NumberOf(db.releases[db.channels[p]]).Some?
      && Channel(db, p) == [db.releases[db.channels[p]].release]
      && forall e :: e in db.releases && Is(e, p) ==> AtMost(e, db.releases[db.channels[p]])
    ensures p !in db.channels ==> Channel(db, p) == []
  {
    hide ParseVersion, NumberOf, AtMost, Ascending, RevisionOk;
    assert ChannelOk(db, p);
  }

  lemma NewerThanBoth(top: Number, e: Number, n: Number)
    requires !Newer(e, top) && Newer(e, n)
    ensures Newer(top, n)
  {
  }

  /** The channel is newer than the release exactly when some stored release is. */
  lemma OlderExactly(db: Db, release: Release, n: Number)
    requires DbOk(db) && ParseVersion(release.version) == Some(n)
    ensures OlderThanChannel(db, release) <==> SomeGreater(db.releases, release.platform, n)
  {
    hide ParseVersion, Channel, Weight, DbOk, WeightOf, Newer;
    var p := release.platform;
    NumbersFit(release.version);
    HasChannel(db, p);
    if p in db.channels {
      var top := db.releases[db.channels[p]];
      assert top in db.releases;
      EntryCompares(top, n);
      forall e | e in db.releases && IsGreater(e, p, n) ensures Newer(NumberOf(top).value, n) {
        assert Is(e, p) && AtMost(e, top);
        EntryCompares(e, n);
        NewerThanBoth(NumberOf(top).value, NumberOf(e).value, n);
      }
    } else {
      forall e | e in db.releases ensures !IsGreater(e, p, n) { assert !Is(e, p); }
    }
  }

  /** A version is stored, or one of its platform is greater, or all are smaller. */
  lemma ThreeCases(db: Db, release: Release, n: Number)
    requires DbOk(db) && ParseVersion(release.version) == Some(n)
    ensures SomeGreater(db.releases, release.platform, n) || SomeStored(db.releases, release)
            || AllSmaller(db.releases, release.platform, n)
    ensures AllSmaller(db.releases, release.platform, n) ==>
              !SomeStored(db.releases, release) && !SomeGreater(db.releases, release.platform, n)
  {
    hide ParseVersion, Channel, Weight, DbOk, WeightOf, Newer;
    var p := release.platform;
    NumbersFit(release.version);
    HasChannel(db, p);
    forall e | e in db.releases && e.release.platform == p
      ensures WeightOf(e).Some? && (IsGreater(e, p, n) || IsStored(e, release) || WeightOf(e).value < Weight(n))
      ensures IsStored(e, release) ==> WeightOf(e).value == Weight(n)
    {
      assert Is(e, p) && AtMost(e, db.releases[db.channels[p]]);
      EntryCompares(e, n);
      if WeightOf(e).value == Weight(n) {
        VersionExact(e.release.version, n);
        VersionExact(release.version, n);
      }
    }
  }

  /** A stored platform and version is stored once. */
  lemma StoredOnce(db: Db, release: Release, e: Entry)
    requires DbOk(db) && e in db.releases && IsStored(e, release)
    ensures var i := Stored(db.releases, release.platform, release.version);
            i.Some? && db.releases[i.value] == e
  {
    hide ParseVersion, RevisionOk, ChannelOk, Stored, Ascending;
    var i := Stored(db.releases, release.platform, release.version);
    assert i.Some?;
    var j :| 0 <= j < |db.releases| && db.releases[j] == e;
    if i.value < j { VersionsDiffer(db.releases, i.value, j); }
    if j < i.value { VersionsDiffer(db.releases, j, i.value); }
  }

  lemma VersionsDiffer(entries: seq<Entry>, i: nat, j: nat)
    requires Ascending(entries) && i < j < |entries|
    ensures entries[i].release.platform == entries[j].release.platform ==> entries[i].release.version != entries[j].release.version
  {
    hide ParseVersion, Newer;
    if entries[i].release.platform == entries[j].release.platform {
      NewerIrreflexive(NumberOf(entries[i]).value, NumberOf(entries[j]).value);
    }
  }

  /** The transaction's answer. It refuses as older exactly behind a greater stored
      version; else a stored version is refused as immutable exactly when it differs and
      otherwise kept; a version greater than all is recorded; and either is refused when
      the manifest of latest releases does not fit. */
  lemma CommitOutcome(db: Db, release: Release, commit: Text, n: Number, fits: seq<Release> -> bool)
    requires DbOk(db) && ParseVersion(release.version) == Some(n)
    ensures var (outcome, p, after) := (Commit(db, release, commit, fits), release.platform, db.releases + [Entry(release, commit)]);
      && (outcome == Refused(Older) <==> SomeGreater(db.releases, p, n))
      && (outcome == Refused(Immutable) <==> !SomeGreater(db.releases, p, n) && SomeDiffers(db.releases, release, commit))
      && (!SomeGreater(db.releases, p, n) && SomeStored(db.releases, release) && !SomeDiffers(db.releases, release, commit) ==>
            outcome == if fits(LatestAll(db.releases)) then Committed(db, false) else Refused(TooLarge))
      && (AllSmaller(db.releases, p, n) ==>
            if fits(LatestAll(after)) then
              outcome.Committed? && outcome.changed && outcome.db.releases == after
            else outcome == Refused(TooLarge))
  {
    hide ParseVersion, OlderThanChannel, LatestAll, SomeGreater, AllSmaller, Snapshot, DbOk, Stored;
    OlderExactly(db, release, n);
    ThreeCases(db, release, n);
    var i := Stored(db.releases, release.platform, release.version);
    assert i.Some? ==> db.releases[i.value] in db.releases;
    if SomeGreater(db.releases, release.platform, n) {
    } else if e :| e in db.releases && IsStored(e, release) {
      StoredOnce(db, release, e);
      forall x | x in db.releases && IsStored(x, release) ensures x == e { StoredOnce(db, release, x); }
      SnapshotIsLatest(db);
      HasPublication(db, e);
    } else {
      InsertedOk(db, release, commit, n);
      SnapshotIsLatest(Inserted(db, release, commit));
    }
  }

  lemma HasPublication(db: Db, e: Entry)
    requires DbOk(db) && e in db.releases
    ensures db.publication.Some?
  {
    hide ParseVersion, ChannelOk, Ascending;
  }

  lemma InsertedOk(db: Db, release: Release, commit: Text, n: Number)
    requires DbOk(db) && ParseVersion(release.version) == Some(n) && !OlderThanChannel(db, release)
    requires Stored(db.releases, release.platform, release.version).None?
    ensures DbOk(Inserted(db, release, commit))
  {
    hide ParseVersion, OlderThanChannel, ChannelOk, Ascending, Stored, Snapshot;
    CommitKeeps(db, release, commit, _ => true);
  }
}
