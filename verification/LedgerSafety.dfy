/** What holds of the release ledger and its files over every run with crashes. */
module LedgerSafety {
  import opened Bytes
  import opened Decimal
  import opened Version
  import opened Ledger

  // ----- inserting a release -----------------------------------------------------------

  lemma {:induction false} LatestIs(entries: seq<Entry>, p: Platform, i: nat)
    requires i < |entries| && Is(entries[i], p) && forall j :: i < j < |entries| ==> !Is(entries[j], p)
    ensures Latest(entries, p) == [entries[i].release]
  {
    if i < |entries| - 1 { LatestIs(entries[..|entries| - 1], p, i); }
  }

  lemma {:induction false} LatestNone(entries: seq<Entry>, p: Platform)
    requires forall e :: e in entries ==> !Is(e, p)
    ensures Latest(entries, p) == []
  {
    if entries != [] { LatestNone(entries[..|entries| - 1], p); }
  }

  lemma ChannelIsLatest(db: Db, p: Platform)
    requires ChannelOk(db, p)
    ensures Channel(db, p) == Latest(db.releases, p)
  {
    hide ParseVersion;
    if p in db.channels { LatestIs(db.releases, p, db.channels[p]); } else { LatestNone(db.releases, p); }
  }

  /** The snapshot shows the latest release of every platform. */
  lemma SnapshotIsLatest(db: Db)
    requires DbOk(db)
    ensures Snapshot(db) == LatestAll(db.releases)
  {
    hide ChannelOk, Channel, Latest, ParseVersion;
    ChannelIsLatest(db, MacosArm64);
    ChannelIsLatest(db, MacosX64);
    ChannelIsLatest(db, WindowsX64);
  }

  lemma NewerOrEqual(a: Number, b: Number)
    ensures a == b || Newer(a, b) || Newer(b, a)
  {
  }

  lemma NewerTransitive(a: Number, b: Number, c: Number)
    requires !Newer(a, b) && Newer(c, b)
    ensures Newer(c, a)
  {
  }

  /** A publishable new version is newer than every stored one of its platform. */
  lemma PublishedIsNewer(db: Db, release: Release, e: Entry)
    requires DbOk(db) && !OlderThanChannel(db, release) && ParseVersion(release.version).Some?
    requires Stored(db.releases, release.platform, release.version).None?
    requires e in db.releases && Is(e, release.platform)
    ensures NumberOf(e).Some? && Newer(ParseVersion(release.version).value, NumberOf(e).value)
  {
    hide ParseVersion, ShowVersion, Newer, Ascending, RevisionOk;
    var p := release.platform;
    assert ChannelOk(db, p);
    var top := db.releases[db.channels[p]];
    var number := ParseVersion(release.version).value;
    assert AtMost(e, top);
    assert Channel(db, p) == [top.release];
    VersionExact(release.version, number);
    VersionExact(top.release.version, NumberOf(top).value);
    assert number != NumberOf(top).value;
    NewerOrEqual(number, NumberOf(top).value);
    NewerTransitive(NumberOf(e).value, NumberOf(top).value, number);
  }

  lemma InsertAscends(db: Db, release: Release, commit: Text)
    requires DbOk(db) && !OlderThanChannel(db, release) && ParseVersion(release.version).Some?
    requires Stored(db.releases, release.platform, release.version).None?
    ensures Ascending(Inserted(db, release, commit).releases)
  {
    hide ParseVersion, Newer, OlderThanChannel, ChannelOk, Stored;
    var after := Inserted(db, release, commit).releases;
    forall i, j | 0 <= i < j < |after| && after[i].release.platform == after[j].release.platform
      ensures NumberOf(after[i]).Some? && NumberOf(after[j]).Some? && Newer(NumberOf(after[j]).value, NumberOf(after[i]).value)
    {
      if j == |db.releases| { PublishedIsNewer(db, release, db.releases[i]); }
      else { assert after[i] == db.releases[i] && after[j] == db.releases[j]; }
    }
  }

  lemma InsertOwnChannel(db: Db, release: Release, commit: Text)
    requires DbOk(db) && !OlderThanChannel(db, release) && ParseVersion(release.version).Some?
    requires Stored(db.releases, release.platform, release.version).None?
    ensures ChannelOk(Inserted(db, release, commit), release.platform)
  {
    hide ParseVersion, OlderThanChannel, Stored, Ascending, RevisionOk, DbOk, ChannelOk, Newer;
    var (after, p, entry) := (Inserted(db, release, commit), release.platform, Entry(release, commit));
    assert after.releases == db.releases + [entry] && entry in after.releases && after.channels[p] == |db.releases|;
    forall e | e in after.releases && Is(e, p) ensures AtMost(e, entry) {
      var number := ParseVersion(release.version).value;
      if e in db.releases {
        PublishedIsNewer(db, release, e);
        NewerIrreflexive(number, NumberOf(e).value);
      } else {
        NewerIrreflexive(number, number);
      }
    }
    TopOk(after, p, |db.releases|);
  }

  lemma NewerIrreflexive(a: Number, b: Number)
    ensures !Newer(a, a) && !(Newer(a, b) && Newer(b, a))
  {
  }

  lemma TopOk(db: Db, p: Platform, i: nat)
    requires p in db.channels && db.channels[p] == i < |db.releases| && Is(db.releases[i], p)
    requires forall j :: i < j < |db.releases| ==> !Is(db.releases[j], p)
    requires NumberOf(db.releases[i]).Some?
    requires forall e :: e in db.releases && Is(e, p) ==> AtMost(e, db.releases[i])
    ensures ChannelOk(db, p)
  {
    hide ParseVersion, AtMost, NumberOf;
    assert db.releases[i] in db.releases;
  }

  lemma InsertOtherChannel(db: Db, release: Release, commit: Text, p: Platform)
    requires ChannelOk(db, p) && p != release.platform
    ensures ChannelOk(Inserted(db, release, commit), p)
  {
    hide ParseVersion, AtMost, NumberOf;
    var (after, entry) := (Inserted(db, release, commit), Entry(release, commit));
    assert after.releases == db.releases + [entry];
    assert forall e :: e in after.releases && Is(e, p) ==> e in db.releases;
    assert forall e :: e in db.releases ==> e in after.releases;
  }

  lemma CommitKeeps(db: Db, release: Release, commit: Text, fits: seq<Release> -> bool)
    requires DbOk(db) && ParseVersion(release.version).Some? && Commit(db, release, commit, fits).Committed?
    ensures DbOk(Commit(db, release, commit, fits).db)
    ensures Commit(db, release, commit, fits).db
         == if Commit(db, release, commit, fits).changed then Inserted(db, release, commit) else db
    ensures Commit(db, release, commit, fits).changed
       <==> Stored(db.releases, release.platform, release.version).None?
  {
    hide ParseVersion, OlderThanChannel, ChannelOk, Ascending, Snapshot, Stored;
    if Commit(db, release, commit, fits).changed {
      InsertAscends(db, release, commit);
      forall p: Platform ensures ChannelOk(Inserted(db, release, commit), p) {
        if p == release.platform { InsertOwnChannel(db, release, commit); } else { InsertOtherChannel(db, release, commit, p); }
      }
    }
  }

  // ----- every step --------------------------------------------------------------------------

  lemma ShowsLater(file: Option<seq<Release>>, windows: bool, db: Db, db': Db, k: nat, from: nat)
    requires Shows(file, windows, db, k, from) && db.releases <= db'.releases
    ensures Shows(file, windows, db', k, from)
  {
    hide LatestAll, Family;
    assert db'.releases[..k] == db.releases[..k];
  }

  lemma PublishKeeps(st: State, release: Release, commit: Text, fits: seq<Release> -> bool, kw: nat, km: nat)
    requires Inv(st, kw, km)
    ensures Inv(Step(st, Publish(release, commit), fits), kw, km)
  {
    hide ParseVersion, ChannelOk, Ascending, Snapshot, Stored, Shows, Commit;
    if (st.pc.Idle? || st.pc.Failed?) && ParseVersion(release.version).Some? {
      var result := Commit(st.db, release, commit, fits);
      if result.Committed? {
        CommitKeeps(st.db, release, commit, fits);
        var rendered := if st.db.publication.Some? then st.db.publication.value.rendered else 0;
        ShowsLater(st.files.windows, true, st.db, result.db, kw, rendered);
        ShowsLater(st.files.macos, false, st.db, result.db, km, rendered);
      }
    }
  }

  lemma GoKeeps(st: State, fits: seq<Release> -> bool, kw: nat, km: nat) returns (kw': nat, km': nat)
    requires Inv(st, kw, km)
    ensures Inv(Step(st, Go, fits), kw', km')
  {
    hide ParseVersion, ChannelOk, Ascending, Snapshot, LatestAll, Family;
    kw', km' := kw, km;
    var all := |st.db.releases|;
    if st.pc.Snapped? { kw' := all; }
    if st.pc.WroteWindows? { km' := all; }
    if st.pc.Snapped? || st.pc.WroteWindows? {
      SnapshotIsLatest(st.db);
      assert st.db.releases[..all] == st.db.releases;
    }
    if st.pc.WroteBoth? { assert DbOk(Step(st, Go, fits).db) by { RenderedKeeps(st.db, st.pc.revision); } }
  }

  lemma RenderedKeeps(db: Db, revision: nat)
    requires DbOk(db) && db.publication.Some? && revision == |db.releases|
    ensures DbOk(db.(publication := Some(db.publication.value.(rendered := revision))))
  {
    hide ParseVersion, Newer, AtMost, NumberOf;
    var after := db.(publication := Some(db.publication.value.(rendered := revision)));
    forall p: Platform ensures ChannelOk(after, p) { assert ChannelOk(db, p); }
  }

  /** Over every run: one entry per platform and version, in increasing order; each
      channel at its newest entry; the revision is the number of entries and the
      rendered one never exceeds it; each file shows whole releases, none older than
      the rendered revision. */
  lemma {:induction false} LedgerSafe(events: seq<Event>, fits: seq<Release> -> bool) returns (kw: nat, km: nat)
    ensures Inv(After(events, fits), kw, km)
  {
    hide ParseVersion, Snapshot, LatestAll, Family, Commit, RenderStep;
    kw, km := 0, 0;
    if events != [] {
      kw, km := LedgerSafe(events[..|events| - 1], fits);
      var st := After(events[..|events| - 1], fits);
      match events[|events| - 1]
      case Publish(release, commit) => PublishKeeps(st, release, commit, fits, kw, km);
      case Go => kw, km := GoKeeps(st, fits, kw, km);
      case Reconcile =>
      case Crash =>
    }
  }

  // ----- immutability ----------------------------------------------------------------------------

  /** Stored releases never change: every later ledger extends every earlier one. */
  lemma {:induction false} ReleasesImmutable(events: seq<Event>, fits: seq<Release> -> bool, j: nat)
    requires j <= |events|
    ensures After(events[..j], fits).db.releases <= After(events, fits).db.releases
    decreases |events|
  {
    hide ParseVersion, Snapshot, Family, OlderThanChannel, Stored;
    if j == |events| {
      assert events[..j] == events;
    } else {
      var front := events[..|events| - 1];
      assert front[..j] == events[..j];
      ReleasesImmutable(front, fits, j);
    }
  }

  // ----- the files ---------------------------------------------------------------------------------

  /** The two files partition a manifest in its own order, macOS platforms first. */
  lemma FamiliesPartition(db: Db)
    requires DbOk(db)
    ensures Family(Snapshot(db), false) + Family(Snapshot(db), true) == Snapshot(db)
    ensures forall r :: r in Family(Snapshot(db), true) <==> r in Snapshot(db) && r.platform == WindowsX64
  {
    hide ParseVersion, AtMost, NumberOf, Ascending, RevisionOk, Family;
    var (arm, x64, win) := (Channel(db, MacosArm64), Channel(db, MacosX64), Channel(db, WindowsX64));
    assert ChannelOk(db, MacosArm64) && ChannelOk(db, MacosX64) && ChannelOk(db, WindowsX64);
    FamilyConcat(arm + x64, win, true);
    FamilyConcat(arm + x64, win, false);
    FamilyConcat(arm, x64, true);
    FamilyConcat(arm, x64, false);
    FamilyOne(arm, MacosArm64);
    FamilyOne(x64, MacosX64);
    FamilyOne(win, WindowsX64);
  }

  lemma {:induction false} FamilyConcat(a: seq<Release>, b: seq<Release>, windows: bool)
    ensures Family(a + b, windows) == Family(a, windows) + Family(b, windows)
  {
    if b == [] {
      assert a + b == a;
    } else {
      FamilyConcat(a, b[..|b| - 1], windows);
      assert (a + b)[..|a + b| - 1] == a + b[..|b| - 1];
    }
  }

  lemma FamilyOne(manifest: seq<Release>, p: Platform)
    requires |manifest| <= 1 && forall r :: r in manifest ==> r.platform == p
    ensures Family(manifest, p == WindowsX64) == manifest && Family(manifest, p != WindowsX64) == []
  {
    if manifest != [] {
      assert manifest == [manifest[0]] && manifest[..0] == [];
      assert Family([], true) == [] && Family([], false) == [];
    }
  }

  /** Whenever the rendered revision has caught up, the two files are exactly the
      current snapshot: windows entries in one, macOS entries in the other. */
  lemma RenderedMeansCurrent(events: seq<Event>, fits: seq<Release> -> bool)
    requires After(events, fits).db.publication.Some?
    requires After(events, fits).db.publication.value.rendered == After(events, fits).db.publication.value.revision
    ensures var st := After(events, fits);
            && st.files == Files(Some(Family(Snapshot(st.db), true)), Some(Family(Snapshot(st.db), false)))
            && st.files.macos.value + st.files.windows.value == Snapshot(st.db)
  {
    hide ParseVersion, After, ChannelOk, Ascending, Snapshot, LatestAll, Family;
    var kw, km := LedgerSafe(events, fits);
    var st := After(events, fits);
    SnapshotIsLatest(st.db);
    assert st.db.releases[..|st.db.releases|] == st.db.releases;
    FamiliesPartition(st.db);
  }

  function Recovered(st: State, fits: seq<Release> -> bool): State {
    var start := Step(Step(st, Crash, fits), Reconcile, fits);
    Step(Step(Step(Step(start, Go, fits), Go, fits), Go, fits), Go, fits)
  }

  lemma RecoveredUpToDate(st: State, fits: seq<Release> -> bool)
    requires st.db.publication.Some? && fits(Snapshot(st.db))
    ensures var after := Recovered(st, fits);
            && after.pc == Idle && after.db.releases == st.db.releases && after.db.channels == st.db.channels
            && after.db.publication == Some(Publication(st.db.publication.value.revision, st.db.publication.value.revision))
  {
    hide Snapshot, Family, Commit;
  }

  lemma AfterSix(events: seq<Event>, fits: seq<Release> -> bool)
    ensures After(events + [Crash, Reconcile, Go, Go, Go, Go], fits) == Recovered(After(events, fits), fits)
  {
    hide Step, After;
    var all := events + [Crash, Reconcile, Go, Go, Go, Go];
    assert all == events + [Crash] + [Reconcile] + [Go] + [Go] + [Go] + [Go];
    AfterSnoc(events, Crash, fits);
    AfterSnoc(events + [Crash], Reconcile, fits);
    AfterSnoc(events + [Crash] + [Reconcile], Go, fits);
    AfterSnoc(events + [Crash] + [Reconcile] + [Go], Go, fits);
    AfterSnoc(events + [Crash] + [Reconcile] + [Go] + [Go], Go, fits);
    AfterSnoc(events + [Crash] + [Reconcile] + [Go] + [Go] + [Go], Go, fits);
  }

  /** After any crash a reconcile of four steps brings the files up to the ledger,
      provided the manifest fits its size limit. */
  lemma ReconcileRecovers(events: seq<Event>, fits: seq<Release> -> bool)
    requires After(events, fits).db.publication.Some? && fits(Snapshot(After(events, fits).db))
    ensures var (before, after) := (After(events, fits).db, After(events + [Crash, Reconcile, Go, Go, Go, Go], fits));
            && after.pc == Idle && after.db.releases == before.releases && after.db.channels == before.channels
            && after.db.publication == Some(Publication(before.publication.value.revision, before.publication.value.revision))
  {
    hide After, Recovered, Snapshot;
    AfterSix(events, fits);
    RecoveredUpToDate(After(events, fits), fits);
  }

  lemma AfterSnoc(events: seq<Event>, event: Event, fits: seq<Release> -> bool)
    ensures After(events + [event], fits) == Step(After(events, fits), event, fits)
  {
    assert (events + [event])[..|events|] == events;
  }

  /** Publishing again succeeds without a new entry only for the release its channel
      already shows, with the same contents and commit. */
  lemma RepublishIsCurrent(db: Db, release: Release, commit: Text, fits: seq<Release> -> bool)
    requires DbOk(db) && ParseVersion(release.version).Some?
    requires Commit(db, release, commit, fits).Committed? && !Commit(db, release, commit, fits).changed
    ensures var p := release.platform;
            && p in db.channels && db.channels[p] < |db.releases|
            && db.releases[db.channels[p]] == Entry(release.(publishedAt := db.releases[db.channels[p]].release.publishedAt), commit)
  {
    hide ParseVersion, Snapshot, RevisionOk, Newer;
    var p := release.platform;
    var i := Stored(db.releases, p, release.version).value;
    assert ChannelOk(db, p) && db.releases[i] in db.releases && Is(db.releases[i], p);
    assert Channel(db, p) == [db.releases[db.channels[p]].release];
  }
}
