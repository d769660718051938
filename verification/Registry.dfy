/** The publisher's own statements over the ledger tables and the two files, proved
    against the steps of the ledger. */
module Registry {
  import opened Bytes
  import opened Decimal
  import opened Version
  import opened Ledger
  import opened LedgerSafety
  import opened LedgerOutcome

  /** A whole uninterrupted render. */
  function Rendered(st: State, fits: seq<Release> -> bool): State {
    RenderStep(RenderStep(RenderStep(RenderStep(st.(pc := Rendering), fits), fits), fits), fits)
  }

  datatype Call = PublishCall(release: Release, commit: Text) | ReconcileCall

  /** What one uninterrupted call leaves. */
  function Called(st: State, call: Call, fits: seq<Release> -> bool): State {
    match call
    case ReconcileCall => Rendered(st, fits)
    case PublishCall(release, commit) =>
      var done := Step(st.(pc := Idle), Event.Publish(release, commit), fits);
      if done.pc.Failed? then done else Rendered(done, fits)
  }

  /** Both files show the latest releases, and the ledger says so. */
  predicate AllRendered(st: State) {
    && st.db.publication.Some? && st.db.publication.value.rendered == st.db.publication.value.revision
    && st.files == Files(Some(Family(LatestAll(st.db.releases), true)), Some(Family(LatestAll(st.db.releases), false)))
  }

  lemma RenderSucceeds(st: State, fits: seq<Release> -> bool)
    requires DbOk(st.db) && st.db.publication.Some? && fits(Snapshot(st.db))
    ensures var done := Rendered(st, fits);
            done.pc == Idle && done.db.releases == st.db.releases && AllRendered(done)
  {
    hide Snapshot, Family, LatestAll, DbOk;
    SnapshotIsLatest(st.db);
  }

  lemma CommittedRenders(st: State, release: Release, commit: Text, fits: seq<Release> -> bool)
    requires DbOk(st.db) && ParseVersion(release.version).Some? && Commit(st.db, release, commit, fits).Committed?
    ensures var done := Called(st, PublishCall(release, commit), fits);
            done.pc == Idle && done.db.releases == Commit(st.db, release, commit, fits).db.releases && AllRendered(done)
  {
    hide ParseVersion, OlderThanChannel, Stored, Snapshot, DbOk, AllRendered, Rendered;
    CommitKeeps(st.db, release, commit, fits);
    RenderSucceeds(Step(st.(pc := Idle), Event.Publish(release, commit), fits), fits);
  }

  /** What Publish answers, said of the stored releases alone: an error exactly behind a
      greater stored version, a differing stored release, or a manifest that does not
      fit; else the ledger holds the release and both files are up to date. */
  lemma PublishAnswers(st: State, release: Release, commit: Text, n: Number, fits: seq<Release> -> bool)
    requires DbOk(st.db) && ParseVersion(release.version) == Some(n)
    ensures var (p, db) := (release.platform, st.db.releases);
            var after := if SomeStored(db, release) then db else db + [Entry(release, commit)];
            var done := Called(st, PublishCall(release, commit), fits);
      && (done.pc == Failed(Older) <==> SomeGreater(db, p, n))
      && (done.pc == Failed(Immutable) <==> !SomeGreater(db, p, n) && SomeDiffers(db, release, commit))
      && (done.pc == Failed(TooLarge) <==>
            !SomeGreater(db, p, n) && !SomeDiffers(db, release, commit) && !fits(LatestAll(after)))
      && (done.pc == Idle <==> !SomeGreater(db, p, n) && !SomeDiffers(db, release, commit) && fits(LatestAll(after)))
      && (done.pc == Idle ==> done.db.releases == after && AllRendered(done))
  {
    hide ParseVersion, Commit, SomeGreater, AllSmaller, SomeDiffers, LatestAll, DbOk, AllRendered, Rendered, Weight;
    CommitOutcome(st.db, release, commit, n, fits);
    ThreeCases(st.db, release, n);
    DiffersIsStored(st.db.releases, release, commit);
    if Commit(st.db, release, commit, fits).Committed? { CommittedRenders(st, release, commit, fits); }
  }

  lemma DiffersIsStored(entries: seq<Entry>, release: Release, commit: Text)
    ensures SomeDiffers(entries, release, commit) ==> SomeStored(entries, release)
  {
  }

  lemma Answered(st: State, release: Release, commit: Text, fits: seq<Release> -> bool)
    requires ParseVersion(release.version).Some?
    ensures DbOk(st.db) ==>
              var done := Called(st, PublishCall(release, commit), fits);
              var n := ParseVersion(release.version).value;
              && (done.pc == Failed(Older) <==> SomeGreater(st.db.releases, release.platform, n))
              && (done.pc == Failed(Immutable) <==>
                    !SomeGreater(st.db.releases, release.platform, n) && SomeDiffers(st.db.releases, release, commit))
              && (done.pc.Failed? ==> done.pc.error in {Older, Immutable, TooLarge})
  {
    hide ParseVersion, Called, SomeGreater, SomeDiffers, DbOk, LatestAll, AllRendered;
    if DbOk(st.db) { PublishAnswers(st, release, commit, ParseVersion(release.version).value, fits); }
  }

  class Tables {
    var releases: seq<Entry>
    var channels: map<Platform, nat>
    var publication: Option<Publication>
    var windows: Option<seq<Release>>
    var macos: Option<seq<Release>>

    function View(pc: Pc): State
      reads this
    {
      State(Db(releases, channels, publication), Files(windows, macos), pc)
    }

    method TakeSnapshot(fits: seq<Release> -> bool) returns (error: Option<Error>, revision: nat,
            manifest: seq<Release>)
      ensures RenderStep(View(Rendering), fits).pc
           == if error.Some? then Failed(error.value) else Snapped(revision, manifest)
    {
      revision, manifest := 0, [];
      if publication.None? { return Some(NoPublication), 0, []; }
      revision, manifest := publication.value.revision, Snapshot(Db(releases, channels, publication));
      if !fits(manifest) { return Some(TooLarge), 0, []; }
      error := None;
    }

    method Render(fits: seq<Release> -> bool) returns (error: Option<Error>)
      modifies this
      ensures View(if error.Some? then Failed(error.value) else Idle) == Rendered(old(View(Idle)), fits)
    {
      hide Snapshot, Family;
      var revision, manifest;
      error, revision, manifest := TakeSnapshot(fits);
      if error.Some? { return; }
      windows := Some(Family(manifest, true));
      macos := Some(Family(manifest, false));
      publication := Some(publication.value.(rendered := revision));
    }

    method Reconcile(fits: seq<Release> -> bool) returns (error: Option<Error>)
      modifies this
      ensures View(if error.Some? then Failed(error.value) else Idle) == Called(old(View(Idle)), ReconcileCall, fits)
    {
      error := Render(fits);
    }

    /** INSERT of the release, its channel and the revision. */
    method Insert(release: Release, commit: Text)
      modifies this
      ensures View(Idle).db == Inserted(old(View(Idle)).db, release, commit) && View(Idle).files == old(View(Idle)).files
    {
      var id := |releases|;
      releases := releases + [Entry(release, commit)];
      channels := channels[release.platform := id];
      publication := Some(if publication.Some? then publication.value.(revision := publication.value.revision + 1)
                          else Publication(1, 0));
    }

    /** The transaction; an error rolls it back. */
    method Record(release: Release, commit: Text, fits: seq<Release> -> bool) returns (error: Option<Error>,
            changed: bool)
      modifies this
      ensures View(Idle).files == old(View(Idle)).files
      ensures match Commit(old(View(Idle)).db, release, commit, fits)
              case Refused(e) => error == Some(e) && View(Idle) == old(View(Idle))
              case Committed(db, c) => error == None && changed == c && View(Idle).db == db
    {
      hide Snapshot, Stored, ParseVersion;
      changed := false;
      var db := Db(releases, channels, publication);
      if OlderThanChannel(db, release) { return Some(Older), false; }
      var previous := Stored(releases, release.platform, release.version);
      changed := previous.None?;
      if !changed {
        var stored := releases[previous.value];
        var candidate := release.(publishedAt := stored.release.publishedAt);
        if candidate != stored.release || commit != stored.commit { return Some(Immutable), false; }
      } else {
        Insert(release, commit);
      }
      var revision, manifest;
      error, revision, manifest := TakeSnapshot(fits);
      if error.Some? {
        releases, channels, publication := db.releases, db.channels, db.publication;
        changed := false;
      }
    }

    /** Publishing is the transaction followed by a render; only the first can refuse
        without leaving a trace. */
    method Publish(release: Release, commit: Text, fits: seq<Release> -> bool) returns (error: Option<Error>,
            changed: bool)
      modifies this
      ensures View(if error.Some? then Failed(error.value) else Idle)
           == Called(old(View(Idle)), PublishCall(release, commit), fits)
      ensures error.None? ==>
        (changed <==> Stored(old(releases), release.platform, release.version).None?)
      ensures ParseVersion(release.version).None? ==> error == Some(Invalid)
      ensures DbOk(old(View(Idle)).db) && ParseVersion(release.version).Some? ==>
        && (error == Some(Older) <==> SomeGreater(old(releases), release.platform, ParseVersion(release.version).value))
        && (error == Some(Immutable) <==>
              !SomeGreater(old(releases), release.platform, ParseVersion(release.version).value)
              && SomeDiffers(old(releases), release, commit))
        && (error.Some? ==> error.value in {Older, Immutable, TooLarge})
    {
      hide Commit, RenderStep, ParseVersion, SomeGreater, SomeDiffers, DbOk, LatestAll, AllRendered;
      if ParseVersion(release.version).None? { return Some(Invalid), false; }
      Answered(View(Idle), release, commit, fits);
      RecordChanged(Db(releases, channels, publication), release, commit, fits);
      error, changed := Record(release, commit, fits);
      if error.Some? { return; }
      error := Render(fits);
    }
  }

  // ----- calls are stretches of runs --------------------------------------------------------

  /** The tables and files after some calls, one after the other. */
  function TablesAfter(calls: seq<Call>, fits: seq<Release> -> bool): State {
    if calls == [] then Start else Called(TablesAfter(calls[..|calls| - 1], fits), calls[|calls| - 1], fits)
  }

  predicate Free(st: State) { st.pc.Idle? || st.pc.Failed? }

  /** The events of one call. */
  function EventsOf(st: State, call: Call, fits: seq<Release> -> bool): seq<Event> {
    match call
    case ReconcileCall => [Event.Reconcile, Go, Go, Go, Go]
    case PublishCall(release, commit) =>
      if Step(st.(pc := Idle), Event.Publish(release, commit), fits).pc.Failed? then [Event.Publish(release, commit)]
      else [Event.Publish(release, commit), Go, Go, Go, Go]
  }

  lemma RenderIsFour(events: seq<Event>, first: Event, fits: seq<Release> -> bool)
    requires After(events + [first], fits).pc == Rendering
    ensures After(events + [first, Go, Go, Go, Go], fits) == Rendered(After(events + [first], fits), fits)
  {
    hide After, RenderStep;
    var start := events + [first];
    assert events + [first, Go, Go, Go, Go] == start + [Go] + [Go] + [Go] + [Go];
    AfterSnoc(start, Go, fits);
    AfterSnoc(start + [Go], Go, fits);
    AfterSnoc(start + [Go] + [Go], Go, fits);
    AfterSnoc(start + [Go] + [Go] + [Go], Go, fits);
  }

  lemma RenderEnds(st: State, fits: seq<Release> -> bool)
    ensures Free(Rendered(st, fits))
  {
    hide Snapshot, Family;
  }

  lemma CallIsRun(events: seq<Event>, call: Call, fits: seq<Release> -> bool)
    requires Free(After(events, fits))
    ensures var st := After(events, fits);
            After(events + EventsOf(st, call, fits), fits) == Called(st, call, fits) && Free(Called(st, call, fits))
  {
    hide After, RenderStep, Commit, ParseVersion, Rendered;
    var st := After(events, fits);
    var first := if call.ReconcileCall? then Event.Reconcile else Event.Publish(call.release, call.commit);
    AfterSnoc(events, first, fits);
    var started := Step(st, first, fits);
    assert started == Step(st.(pc := Idle), first, fits);
    if started.pc == Rendering {
      RenderIsFour(events, first, fits);
      RenderEnds(started, fits);
      RenderFrom(st, fits);
    }
  }

  /** A render starts by itself, whatever came before. */
  lemma RenderFrom(st: State, fits: seq<Release> -> bool)
    ensures Rendered(st.(pc := Rendering), fits) == Rendered(st, fits)
  {
    hide RenderStep;
  }

  /** Any calls, one after the other, are a run of the ledger: what holds of every run
      holds of the tables and files they leave. */
  lemma {:induction false} CallsAreRuns(calls: seq<Call>, fits: seq<Release> -> bool) returns (events: seq<Event>)
    ensures After(events, fits) == TablesAfter(calls, fits) && Free(TablesAfter(calls, fits))
  {
    hide After, Called;
    events := [];
    if calls == [] {
      assert After([], fits) == Start by { NoEvents(fits); }
    } else {
      var before := CallsAreRuns(calls[..|calls| - 1], fits);
      CallIsRun(before, calls[|calls| - 1], fits);
      events := before + EventsOf(After(before, fits), calls[|calls| - 1], fits);
    }
  }

  lemma NoEvents(fits: seq<Release> -> bool)
    ensures After([], fits) == Start
  {
  }

  /** So the tables keep one entry per platform and version in increasing order, and
      files that show whole releases no older than the rendered revision. */
  lemma TablesSafe(calls: seq<Call>, fits: seq<Release> -> bool) returns (kw: nat, km: nat)
    ensures Inv(TablesAfter(calls, fits), kw, km)
  {
    hide Inv, After, TablesAfter;
    var events := CallsAreRuns(calls, fits);
    kw, km := LedgerSafe(events, fits);
  }

  lemma RecordChanged(db: Db, release: Release, commit: Text, fits: seq<Release> -> bool)
    ensures Commit(db, release, commit, fits).Committed? ==>
              (Commit(db, release, commit, fits).changed <==> Stored(db.releases, release.platform, release.version).None?)
  {
  }
}
