/** The release ledger and its two file projections, through crashes between any two
    durable steps. The session lock makes one publisher work at a time. */
module Ledger {
  import opened Bytes
  import opened Decimal
  import opened Version

  datatype Platform = MacosArm64 | MacosX64 | WindowsX64

  /** `details` is the rest of the manifest entry: notes, assets and flags. */
  datatype Release = Release(platform: Platform, version: Text, publishedAt: Text, details: Text)

  datatype Entry = Entry(release: Release, commit: Text)

  datatype Publication = Publication(revision: nat, rendered: nat)

  /** Ids are positions in `releases`. */
  datatype Db = Db(releases: seq<Entry>, channels: map<Platform, nat>, publication: Option<Publication>)

  /** stable.json and macos.json; None before the first write. */
  datatype Files = Files(windows: Option<seq<Release>>, macos: Option<seq<Release>>)

  datatype Error = Invalid | NoPublication | TooLarge | Older | Immutable

  /** Where the lock holder is inside render. */
  datatype Pc = Idle | Rendering | Snapped(revision: nat, manifest: seq<Release>)
              | WroteWindows(revision: nat, manifest: seq<Release>) | WroteBoth(revision: nat)
              | Failed(error: Error)

  datatype State = State(db: Db, files: Files, pc: Pc)

  // ----- the snapshot ----------------------------------------------------------------

  function Channel(db: Db, p: Platform): seq<Release> {
    if p in db.channels && db.channels[p] < |db.releases| then [db.releases[db.channels[p]].release] else []
  }

  /** The channel releases in order of platform. */
  function Snapshot(db: Db): seq<Release> {
    Channel(db, MacosArm64) + Channel(db, MacosX64) + Channel(db, WindowsX64)
  }

  function Family(manifest: seq<Release>, windows: bool): seq<Release> {
    if manifest == [] then [] else
      var (front, r) := (Family(manifest[..|manifest| - 1], windows), manifest[|manifest| - 1]);
      if (r.platform == WindowsX64) == windows then front + [r] else front
  }

  // ----- steps ------------------------------------------------------------------------

  datatype Event = Publish(release: Release, commit: Text) | Reconcile | Go | Crash

  /** The entry already stored under a platform and version. */
  function Stored(entries: seq<Entry>, p: Platform, version: Text): (r: Option<nat>)
    ensures r.Some? ==> r.value < |entries| && entries[r.value].release.platform == p && entries[r.value].release.version == version
    ensures r.None? ==> forall e :: e in entries ==> e.release.platform != p || e.release.version != version
  {
    if entries == [] then None
    else
      var last := entries[|entries| - 1].release;
      if last.platform == p && last.version == version then Some(|entries| - 1)
      else Stored(entries[..|entries| - 1], p, version)
  }

  function Inserted(db: Db, release: Release, commit: Text): Db {
    Db(db.releases + [Entry(release, commit)], db.channels[release.platform := |db.releases|],
       Some(match db.publication
            case Some(p) => p.(revision := p.revision + 1)
            case None => Publication(1, 0)))
  }

  predicate OlderThanChannel(db: Db, release: Release) {
    Channel(db, release.platform) != []
    && ParseVersion(Channel(db, release.platform)[0].version).Some? && ParseVersion(release.version).Some?
    && Newer(ParseVersion(Channel(db, release.platform)[0].version).value, ParseVersion(release.version).value)
  }

  /** The publishing transaction up to its commit; `fits` is the manifest size limit. */
  function Commit(db: Db, release: Release, commit: Text, fits: seq<Release> -> bool): Result {
    if OlderThanChannel(db, release) then Refused(Older)
    else
      var previous := Stored(db.releases, release.platform, release.version);
      if previous.Some? && (release.(publishedAt := db.releases[previous.value].release.publishedAt) != db.releases[previous.value].release
                            || commit != db.releases[previous.value].commit) then Refused(Immutable)
      else
        var after := if previous.Some? then db else Inserted(db, release, commit);
        if after.publication.None? then Refused(NoPublication)
        else if !fits(Snapshot(after)) then Refused(TooLarge)
        else Committed(after, previous.None?)
  }

  datatype Result = Refused(error: Error) | Committed(db: Db, changed: bool)

  function RenderStep(st: State, fits: seq<Release> -> bool): State {
    match st.pc
    case Rendering =>
      if st.db.publication.None? then st.(pc := Failed(NoPublication))
      else if !fits(Snapshot(st.db)) then st.(pc := Failed(TooLarge))
      else st.(pc := Snapped(st.db.publication.value.revision, Snapshot(st.db)))
    case Snapped(revision, manifest) =>
      st.(files := st.files.(windows := Some(Family(manifest, true))), pc := WroteWindows(revision, manifest))
    case WroteWindows(revision, manifest) =>
      st.(files := st.files.(macos := Some(Family(manifest, false))), pc := WroteBoth(revision))
    case WroteBoth(revision) =>
      if st.db.publication.None? then st.(pc := Idle)
      else st.(db := st.db.(publication := Some(st.db.publication.value.(rendered := revision))), pc := Idle)
    case _ => st
  }

  /** An operation starts only when no other one holds the lock; a crash releases it. */
  function Step(st: State, event: Event, fits: seq<Release> -> bool): State {
    match event
    case Go => RenderStep(st, fits)
    case Crash => st.(pc := Idle)
    case Reconcile => if st.pc.Idle? || st.pc.Failed? then st.(pc := Rendering) else st
    case Publish(release, commit) =>
      if !(st.pc.Idle? || st.pc.Failed?) then st
      else if ParseVersion(release.version).None? then st.(pc := Failed(Invalid))
      else match Commit(st.db, release, commit, fits)
        case Refused(error) => st.(pc := Failed(error))
        case Committed(db, _) => st.(db := db, pc := Rendering)
  }

  const Start := State(Db([], map[], None), Files(None, None), Idle)

  function After(events: seq<Event>, fits: seq<Release> -> bool): State {
    if events == [] then Start else Step(After(events[..|events| - 1], fits), events[|events| - 1], fits)
  }

  // ----- the invariant ------------------------------------------------------------------

  predicate Is(e: Entry, p: Platform) { e.release.platform == p }

  function NumberOf(e: Entry): Option<Number> { ParseVersion(e.release.version) }

  /** The channel of a platform is its last entry, which no entry of it is newer than. */
  ghost predicate ChannelOk(db: Db, p: Platform) {
    && (p in db.channels <==> exists e :: e in db.releases && Is(e, p))
    && (p in db.channels ==>
          && db.channels[p] < |db.releases| && Is(db.releases[db.channels[p]], p)
          && (forall i :: db.channels[p] < i < |db.releases| ==> !Is(db.releases[i], p))
          && NumberOf(db.releases[db.channels[p]]).Some?
          && (forall e :: e in db.releases && Is(e, p) ==> AtMost(e, db.releases[db.channels[p]])))
  }

  predicate AtMost(e: Entry, top: Entry) {
    NumberOf(e).Some? && NumberOf(top).Some? && !Newer(NumberOf(e).value, NumberOf(top).value)
  }

  /** One entry for each platform and version, in increasing order of version. */
  ghost predicate Ascending(entries: seq<Entry>) {
    forall i, j :: 0 <= i < j < |entries| && entries[i].release.platform == entries[j].release.platform ==>
      NumberOf(entries[i]).Some? && NumberOf(entries[j]).Some?
      && Newer(NumberOf(entries[j]).value, NumberOf(entries[i]).value)
  }

  ghost predicate RevisionOk(db: Db) {
    match db.publication
    case None => db.releases == []
    case Some(p) => p.revision == |db.releases| > 0 && p.rendered <= p.revision
  }

  ghost predicate DbOk(db: Db) {
    RevisionOk(db) && Ascending(db.releases) && forall p: Platform :: ChannelOk(db, p)
  }

  /** The latest release of each platform among the first k entries. */
  function Latest(entries: seq<Entry>, p: Platform): seq<Release> {
    if entries == [] then []
    else if Is(entries[|entries| - 1], p) then [entries[|entries| - 1].release]
    else Latest(entries[..|entries| - 1], p)
  }

  function LatestAll(entries: seq<Entry>): seq<Release> {
    Latest(entries, MacosArm64) + Latest(entries, MacosX64) + Latest(entries, WindowsX64)
  }

  /** A file shows the first k releases for some k between `from` and all of them. */
  predicate Shows(file: Option<seq<Release>>, windows: bool, db: Db, k: nat, from: nat) {
    from <= k <= |db.releases|
    && (if k == 0 then file.None? else file == Some(Family(LatestAll(db.releases[..k]), windows)))
  }

  ghost predicate FilesOk(st: State, kw: nat, km: nat) {
    var rendered := if st.db.publication.Some? then st.db.publication.value.rendered else 0;
    Shows(st.files.windows, true, st.db, kw, rendered) && Shows(st.files.macos, false, st.db, km, rendered)
  }

  ghost predicate PcOk(st: State, kw: nat, km: nat) {
    var all := |st.db.releases|;
    match st.pc
    case Snapped(revision, manifest) => revision == all > 0 && manifest == Snapshot(st.db)
    case WroteWindows(revision, manifest) => revision == all > 0 && manifest == Snapshot(st.db) && kw == all
    case WroteBoth(revision) => revision == all > 0 && kw == all && km == all
    case _ => true
  }

  ghost predicate Inv(st: State, kw: nat, km: nat) { DbOk(st.db) && FilesOk(st, kw, km) && PcOk(st, kw, km) }
}
