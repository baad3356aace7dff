/**
 Runs of the whole system: the folder is edited, published, and clients launch or are
 killed while launching, in any order and number, whatever the clock says.
 */
module ResourceHistory {
  import opened Common
  import opened Text
  import opened Version
  import opened ResourceUpdate

  /** A client killed while it syncs leaves some partly updated disk behind. */
  datatype Event = Edit(files: Store) | PublishAt(today: string) | LaunchClient | KillClient(left: Store)

  /** Editing the folder leaves the publisher's own `version.json` alone. */
  function EditFolder(folder: Store, files: Store): Store {
    if VERSION_JSON in folder then files[VERSION_JSON := folder[VERSION_JSON]] else files - {VERSION_JSON}
  }

  function Step(hash: Hash, w: World, e: Event): World {
    match e
    case Edit(files) => w.(folder := EditFolder(w.folder, files))
    case PublishAt(today) => Publish(hash, w, today)
    case LaunchClient => Launch(hash, w)
    case KillClient(left) => w.(disk := left)
  }

  function Run(hash: Hash, w: World, events: seq<Event>): World
    decreases |events|
  {
    if events == [] then w else Run(hash, Step(hash, w, events[0]), events[1..])
  }

  lemma {:induction false} RunConcat(hash: Hash, w: World, xs: seq<Event>, ys: seq<Event>)
    ensures Run(hash, w, xs + ys) == Run(hash, Run(hash, w, xs), ys)
    decreases |xs|
  {
    if xs == [] {
      assert xs + ys == ys;
    } else {
      ConcatSplits(xs, ys);
      RunConcat(hash, Step(hash, w, xs[0]), xs[1..], ys);
    }
  }

  /** The current version string, as the publisher would load it. */
  function CurrentVersion(w: World): string {
    if LoadManifest(w.folder).Ok? then LoadManifest(w.folder).value.version else ""
  }

  /** Before the first publish: no manifest anywhere; the client disk may hold any other files. */
  predicate Fresh(w: World) {
    && VERSION_JSON !in w.folder && VERSION_JSON !in w.server
    && (VERSION_JSON in w.disk ==> w.disk[VERSION_JSON].Raw?)
  }

  const EPOCH: string := "19700101"

  lemma InitialVersionIsVersion()
    ensures IsDate(EPOCH) && IsVersion(INITIAL_VERSION) && KeyOf(INITIAL_VERSION) == INITIAL_KEY
    ensures DateOf(INITIAL_VERSION) == DigitsValue(EPOCH)
  {
    assert INITIAL_VERSION == Print(EPOCH, 0);
    KeyOfPrinted(EPOCH, 0);
    PrintedIsRead(EPOCH, 0);
  }

  // ---------------------------------------------------------------- the server, after any events at all

  /** The server has the publisher's manifest together with every file it lists. */
  ghost predicate ServerComplete(hash: Hash, w: World) {
    && (VERSION_JSON in w.folder <==> VERSION_JSON in w.server)
    && (VERSION_JSON in w.folder ==> w.folder[VERSION_JSON] == w.server[VERSION_JSON])
    && LoadManifest(w.folder).Ok?
    && Holds(hash, w.server, LoadManifest(w.folder).value.md5) && VERSION_JSON !in LoadManifest(w.folder).value.md5
  }

  lemma PublishInstalls(hash: Hash, w: World, today: string, current: VersionInfo, next: VersionInfo)
    requires LoadManifest(w.folder) == Ok(current) && UpdateVersion(current.version, today) == Ok(next.version)
    requires next.md5 == Hashes(hash, w.folder) && ChangedSet(current.md5, next.md5) != {}
    requires Holds(hash, w.server, current.md5) && VERSION_JSON !in current.md5
    ensures var w' := Publish(hash, w, today);
            && w'.disk == w.disk && w'.folder == WithManifest(w.folder, next)
            && VERSION_JSON in w'.server && w'.server[VERSION_JSON] == Json(next)
            && Holds(hash, w'.server, next.md5)
  {
    UploadsCoverManifest(hash, w.server, w.folder, current.md5, next);
  }

  /** There is something to publish, and a version to publish it under. */
  predicate Publishes(hash: Hash, w: World, today: string) {
    && LoadManifest(w.folder).Ok?
    && ChangedSet(LoadManifest(w.folder).value.md5, Hashes(hash, w.folder)) != {}
    && UpdateVersion(CurrentVersion(w), today).Ok?
  }

  /** A publish changes nothing, or installs the folder's hashes under the next version, with every file. */
  lemma PublishKeepsServerComplete(hash: Hash, w: World, today: string)
    requires ServerComplete(hash, w)
    ensures var w' := Publish(hash, w, today);
            && ServerComplete(hash, w') && w'.disk == w.disk
            && if Publishes(hash, w, today) then
                 && VERSION_JSON in w'.folder
                 && LoadManifest(w'.folder) == Ok(VersionInfo(UpdateVersion(CurrentVersion(w), today).value, Hashes(hash, w.folder)))
               else w' == w
  {
    if Publishes(hash, w, today) {
      var next := VersionInfo(UpdateVersion(CurrentVersion(w), today).value, Hashes(hash, w.folder));
      PublishInstalls(hash, w, today, LoadManifest(w.folder).value, next);
    }
  }

  lemma StepKeepsServerComplete(hash: Hash, w: World, e: Event)
    requires ServerComplete(hash, w)
    ensures ServerComplete(hash, Step(hash, w, e))
  {
    if e.PublishAt? {
      PublishKeepsServerComplete(hash, w, e.today);
    }
  }

  lemma {:induction false} RunKeepsServerComplete(hash: Hash, w: World, events: seq<Event>)
    requires ServerComplete(hash, w)
    ensures ServerComplete(hash, Run(hash, w, events))
    decreases |events|
  {
    if events != [] {
      StepKeepsServerComplete(hash, w, events[0]);
      RunKeepsServerComplete(hash, Step(hash, w, events[0]), events[1..]);
    }
  }

  /** After any events whatever, each entry of the server's manifest has a stored file with that hash. */
  lemma ServerAlwaysComplete(hash: Hash, w0: World, events: seq<Event>)
    requires Fresh(w0)
    ensures var w := Run(hash, w0, events);
            LatestManifest(w.server).Ok? && Holds(hash, w.server, LatestManifest(w.server).value.md5)
  {
    RunKeepsServerComplete(hash, w0, events);
  }

  // ---------------------------------------------------------------- which histories give no version out twice

  /** The versions given out, as pairs. */
  function IssuedBy(hash: Hash, issued: set<Key>, w: World, e: Event): set<Key> {
    if e.PublishAt? && Publishes(hash, w, e.today) && IsVersion(CurrentVersion(w)) then
      issued + {NextKey(KeyOf(CurrentVersion(w)), e.today)}
    else issued
  }

  function IssuedAfter(hash: Hash, issued: set<Key>, w: World, events: seq<Event>): set<Key>
    decreases |events|
  {
    if events == [] then issued
    else IssuedAfter(hash, IssuedBy(hash, issued, w, events[0]), Step(hash, w, events[0]), events[1..])
  }

  /** What the events mean: `today` is a date, and a killed client was in the middle of a launch. */
  predicate Possible(hash: Hash, w: World, e: Event) {
    match e
    case Edit(_) => true
    case PublishAt(today) => IsDate(today)
    case LaunchClient => true
    case KillClient(left) =>
      LatestManifest(w.server).Ok? &&
      if Skips(w) then left == w.disk else Killed(hash, w.disk, LatestManifest(w.server).value.md5, left)
  }

  /** A publish that changes anything gives out a version that has not been given out before. */
  predicate Allowed(hash: Hash, w: World, issued: set<Key>, e: Event) {
    && Possible(hash, w, e)
    && (e.PublishAt? && Publishes(hash, w, e.today) && IsVersion(CurrentVersion(w)) ==>
          VersionFree(issued, KeyOf(CurrentVersion(w)), e.today))
  }

  predicate Legal(hash: Hash, w: World, issued: set<Key>, events: seq<Event>)
    decreases |events|
  {
    events == [] ||
    (Allowed(hash, w, issued, events[0]) &&
     Legal(hash, Step(hash, w, events[0]), IssuedBy(hash, issued, w, events[0]), events[1..]))
  }

  // ---------------------------------------------------------------- what every step keeps

  ghost predicate VersionsKnown(w: World, issued: set<Key>) {
    && IsVersion(CurrentVersion(w)) && Issued(issued, KeyOf(CurrentVersion(w)))
    && (issued == {} <==> VERSION_JSON !in w.folder)
  }

  /** A client's manifest was given out once; if its version is current, so is the manifest, and its files are there. */
  ghost predicate ClientConsistent(hash: Hash, w: World, issued: set<Key>) {
    VERSION_JSON in w.disk && w.disk[VERSION_JSON].Json? ==>
      && VERSION_JSON in w.server && w.server[VERSION_JSON].Json?
      && NamedOnce(w.disk[VERSION_JSON].info, w.server[VERSION_JSON].info, issued)
      && VERSION_JSON !in w.disk[VERSION_JSON].info.md5
      && (w.disk[VERSION_JSON].info.version == w.server[VERSION_JSON].info.version ==>
            Holds(hash, w.disk, w.server[VERSION_JSON].info.md5))
  }

  ghost predicate NamedOnce(mine: VersionInfo, current: VersionInfo, issued: set<Key>) {
    && IsVersion(mine.version) && KeyOf(mine.version) in issued
    && (mine.version == current.version ==> mine == current)
  }

  ghost predicate Inv(hash: Hash, w: World, issued: set<Key>) {
    ServerComplete(hash, w) && VersionsKnown(w, issued) && ClientConsistent(hash, w, issued)
  }

  lemma FreshIsConsistent(hash: Hash, w: World)
    requires Fresh(w)
    ensures Inv(hash, w, {})
  {
    InitialVersionIsVersion();
  }

  /** The published version has not been given out before, exactly when the guard holds. */
  lemma PublishIssues(hash: Hash, w: World, issued: set<Key>, today: string)
    requires ServerComplete(hash, w) && VersionsKnown(w, issued) && IsDate(today) && Publishes(hash, w, today)
    ensures var w' := Publish(hash, w, today);
            var key := NextKey(KeyOf(CurrentVersion(w)), today);
            && IsVersion(CurrentVersion(w')) && KeyOf(CurrentVersion(w')) == key
            && (key !in issued <==> VersionFree(issued, KeyOf(CurrentVersion(w)), today))
            && (key !in issued ==> VersionsKnown(w', issued + {key}))
  {
    PublishKeepsServerComplete(hash, w, today);
    var next := UpdateIsNextKey(CurrentVersion(w), today);
    FreshVersionExactly(issued, KeyOf(CurrentVersion(w)), today);
  }

  lemma PublishKeepsInv(hash: Hash, w: World, issued: set<Key>, today: string)
    requires Inv(hash, w, issued) && Allowed(hash, w, issued, PublishAt(today))
    ensures Inv(hash, Publish(hash, w, today), IssuedBy(hash, issued, w, PublishAt(today)))
  {
    PublishKeepsServerComplete(hash, w, today);
    if Publishes(hash, w, today) {
      PublishIssues(hash, w, issued, today);
    }
  }

  /** A launch that does not skip leaves the client consistent with the server. */
  lemma SyncKeepsClient(hash: Hash, w: World, issued: set<Key>, info: VersionInfo)
    requires Inv(hash, w, issued) && VERSION_JSON in w.server && w.server[VERSION_JSON] == Json(info)
    requires LocalVersion(w.disk) != info.version
    ensures ClientConsistent(hash, w.(disk := Sync(hash, w.disk, w.server, info.md5)), issued)
  {
    SyncInstalls(hash, w.disk, w.server, info.md5);
    var kept := w.disk - Withdrawn(w.disk, info.md5);
    if QueueSet(hash, kept, info.md5) == {} {
      assert VERSION_JSON in kept <==> VERSION_JSON in w.disk;
    } else {
      assert Sync(hash, w.disk, w.server, info.md5)[VERSION_JSON] == Json(info);
    }
  }

  lemma LaunchKeepsInv(hash: Hash, w: World, issued: set<Key>)
    requires Inv(hash, w, issued)
    ensures Inv(hash, Launch(hash, w), issued)
  {
    if VERSION_JSON in w.server {
      var info := w.server[VERSION_JSON].info;
      if LocalVersion(w.disk) != info.version {
        SyncKeepsClient(hash, w, issued, info);
      }
    } else if !Skips(w) {
      assert Sync(hash, w.disk, w.server, map[]) == w.disk;
    }
  }

  /** A killed launch has left `version.json` as it was or torn, so the next launch does not skip. */
  lemma KillKeepsInv(hash: Hash, w: World, issued: set<Key>, left: Store)
    requires Inv(hash, w, issued) && Possible(hash, w, KillClient(left))
    ensures Inv(hash, w.(disk := left), issued)
    ensures Skips(w.(disk := left)) <==> Skips(w)
  {
    assert |INITIAL_VERSION| > |NO_LOCAL_VERSION|;
  }

  lemma StepKeepsInv(hash: Hash, w: World, issued: set<Key>, e: Event)
    requires Inv(hash, w, issued) && Allowed(hash, w, issued, e)
    ensures Inv(hash, Step(hash, w, e), IssuedBy(hash, issued, w, e))
  {
    match e
    case Edit(files) =>
    case PublishAt(today) => PublishKeepsInv(hash, w, issued, today);
    case LaunchClient => LaunchKeepsInv(hash, w, issued);
    case KillClient(left) => KillKeepsInv(hash, w, issued, left);
  }

  lemma {:induction false} RunKeepsInv(hash: Hash, w: World, issued: set<Key>, events: seq<Event>)
    requires Inv(hash, w, issued) && Legal(hash, w, issued, events)
    ensures Inv(hash, Run(hash, w, events), IssuedAfter(hash, issued, w, events))
    decreases |events|
  {
    if events != [] {
      StepKeepsInv(hash, w, issued, events[0]);
      RunKeepsInv(hash, Step(hash, w, events[0]), IssuedBy(hash, issued, w, events[0]), events[1..]);
    }
  }

  // ---------------------------------------------------------------- skipping and launching

  /**
   After any history in which no version is given out twice, a launcher that finds the
   versions equal and skips downloading already holds every file of the server's manifest.
   */
  lemma SkippingIsSafe(hash: Hash, w0: World, events: seq<Event>)
    requires Fresh(w0) && Legal(hash, w0, {}, events)
    ensures var w := Run(hash, w0, events);
            Skips(w) ==> Holds(hash, w.disk, LatestManifest(w.server).value.md5)
  {
    FreshIsConsistent(hash, w0);
    RunKeepsInv(hash, w0, {}, events);
  }

  /**
   After any such history a launch, skipped or not, leaves every published file on the disk,
   and of all other names exactly those that were there without the local manifest listing them.
   */
  lemma LaunchInstallsExactly(hash: Hash, w0: World, events: seq<Event>)
    requires Fresh(w0) && Legal(hash, w0, {}, events)
    ensures var w := Run(hash, w0, events);
            var launched := Launch(hash, w);
            && LatestManifest(w.server).Ok?
            && var md5 := LatestManifest(w.server).value.md5;
            && Holds(hash, launched.disk, md5)
            && forall f :: f !in md5 && f != VERSION_JSON ==> (f in launched.disk <==> f in Unlisted(w.disk))
  {
    FreshIsConsistent(hash, w0);
    RunKeepsInv(hash, w0, {}, events);
    LaunchIsExact(hash, Run(hash, w0, events), IssuedAfter(hash, {}, w0, events));
  }

  lemma LaunchIsExact(hash: Hash, w: World, issued: set<Key>)
    requires Inv(hash, w, issued)
    ensures LatestManifest(w.server).Ok?
    ensures var md5, launched := LatestManifest(w.server).value.md5, Launch(hash, w);
            && Holds(hash, launched.disk, md5)
            && (forall f :: f !in md5 && f != VERSION_JSON ==> (f in launched.disk <==> f in Unlisted(w.disk)))
            && Unlisted(launched.disk) <= Unlisted(w.disk)
  {
    if VERSION_JSON in w.server {
      var info := w.server[VERSION_JSON].info;
      if LocalVersion(w.disk) != info.version {
        SyncInstalls(hash, w.disk, w.server, info.md5);
        SyncLeavesUnlisted(hash, w.disk, w.server, info);
      }
    } else if !Skips(w) {
      assert Sync(hash, w.disk, w.server, map[]) == w.disk;
    }
  }

  /**
   The whole way from the folder to the disk: when a publish that is within the guard is followed
   by a launch, every file of the folder is on the disk with its hash, and what else is there was
   on the disk before without the local manifest listing it.
   */
  lemma FolderReachesDisk(hash: Hash, w0: World, events: seq<Event>, today: string)
    requires Fresh(w0) && Legal(hash, w0, {}, events + [PublishAt(today)])
    ensures var w := Run(hash, w0, events);
            var disk := Launch(hash, Publish(hash, w, today)).disk;
            && (forall f :: f in w.folder && f != "version.json" ==> f in disk && hash(disk[f]) == hash(w.folder[f]))
            && (forall f :: f in disk && f != "version.json" && f !in w.folder ==> f in Unlisted(w.disk))
  {
    FreshIsConsistent(hash, w0);
    LegalSplits(hash, w0, {}, events, [PublishAt(today)]);
    RunKeepsInv(hash, w0, {}, events);
    var w, issued := Run(hash, w0, events), IssuedAfter(hash, {}, w0, events);
    PublishKeepsInv(hash, w, issued, today);
    PublishReachesServer(hash, w, issued, today);
    var published := Publish(hash, w, today);
    LaunchIsExact(hash, published, IssuedBy(hash, issued, w, PublishAt(today)));
  }

  /** Afterwards the server's manifest is the hashes of the folder, whether or not anything had changed. */
  lemma PublishReachesServer(hash: Hash, w: World, issued: set<Key>, today: string)
    requires Inv(hash, w, issued) && IsDate(today)
    ensures LatestManifest(Publish(hash, w, today).server).Ok?
    ensures LatestManifest(Publish(hash, w, today).server).value.md5 == Hashes(hash, w.folder)
  {
    PublishKeepsServerComplete(hash, w, today);
    var next := UpdateIsNextKey(CurrentVersion(w), today);
    NoChangeMeansEqual(LoadManifest(w.folder).value.md5, Hashes(hash, w.folder));
  }

  lemma StepListsNames(hash: Hash, w: World, e: Event)
    requires ServerComplete(hash, w) && VERSION_JSON !in LocalFiles(w.disk) && !e.KillClient?
    ensures var w' := Step(hash, w, e);
            VERSION_JSON !in LocalFiles(w'.disk) && Unlisted(w'.disk) <= Unlisted(w.disk)
  {
    if e.PublishAt? {
      PublishKeepsServerComplete(hash, w, e.today);
    } else if e.LaunchClient? && !Skips(w) {
      if VERSION_JSON in w.server {
        SyncLeavesUnlisted(hash, w.disk, w.server, w.server[VERSION_JSON].info);
        SyncKeepsManifestUnlisted(hash, w.disk, w.server, w.server[VERSION_JSON].info);
      } else {
        var kept := w.disk - Withdrawn(w.disk, map[]);
        assert LocalFiles(kept) == LocalFiles(w.disk);
      }
    }
  }

  lemma SyncKeepsManifestUnlisted(hash: Hash, disk: Store, server: Store, info: VersionInfo)
    requires VERSION_JSON in server && server[VERSION_JSON] == Json(info)
    requires VERSION_JSON !in info.md5 && VERSION_JSON !in LocalFiles(disk)
    ensures VERSION_JSON !in LocalFiles(Sync(hash, disk, server, info.md5))
  {
    var kept := disk - Withdrawn(disk, info.md5);
    assert LocalFiles(kept) == LocalFiles(disk);
  }

  /**
   From any moment on, whatever the clock says, if no launch is killed, no name becomes
   unlisted: what a manifest has once accounted for is deleted when it is withdrawn.
   */
  lemma {:induction false} UnlistedNeverGrows(hash: Hash, w: World, events: seq<Event>)
    requires ServerComplete(hash, w) && VERSION_JSON !in LocalFiles(w.disk)
    requires forall i :: 0 <= i < |events| ==> !events[i].KillClient?
    ensures Unlisted(Run(hash, w, events).disk) <= Unlisted(w.disk)
    decreases |events|
  {
    if events != [] {
      StepKeepsServerComplete(hash, w, events[0]);
      StepListsNames(hash, w, events[0]);
      assert forall i :: 0 <= i < |events[1..]| ==> events[1..][i] == events[i + 1];
      UnlistedNeverGrows(hash, Step(hash, w, events[0]), events[1..]);
    }
  }

  // ---------------------------------------------------------------- versions name manifests

  lemma {:induction false} LegalSplits(hash: Hash, w: World, issued: set<Key>, before: seq<Event>, between: seq<Event>)
    requires Legal(hash, w, issued, before + between)
    ensures Legal(hash, w, issued, before)
    ensures Legal(hash, Run(hash, w, before), IssuedAfter(hash, issued, w, before), between)
    decreases |before|
  {
    if before == [] {
      assert before + between == between;
    } else {
      ConcatSplits(before, between);
      LegalSplits(hash, Step(hash, w, before[0]), IssuedBy(hash, issued, w, before[0]), before[1..], between);
    }
  }

  lemma {:induction false} NameStays(hash: Hash, w: World, issued: set<Key>, events: seq<Event>, mine: VersionInfo)
    requires Inv(hash, w, issued) && Legal(hash, w, issued, events)
    requires VERSION_JSON in w.folder && NamedOnce(mine, LoadManifest(w.folder).value, issued)
    ensures var w' := Run(hash, w, events);
            LoadManifest(w'.folder).Ok? && (mine.version == CurrentVersion(w') ==> LoadManifest(w'.folder) == Ok(mine))
    decreases |events|
  {
    if events != [] {
      StepKeepsInv(hash, w, issued, events[0]);
      if events[0].PublishAt? {
        PublishKeepsServerComplete(hash, w, events[0].today);
        if Publishes(hash, w, events[0].today) {
          PublishIssues(hash, w, issued, events[0].today);
        }
      }
      NameStays(hash, Step(hash, w, events[0]), IssuedBy(hash, issued, w, events[0]), events[1..], mine);
    }
  }

  /** While the guard is kept, one version string never names two published manifests. */
  lemma VersionNamesOneManifest(hash: Hash, w0: World, before: seq<Event>, between: seq<Event>)
    requires Fresh(w0) && Legal(hash, w0, {}, before + between)
    requires VERSION_JSON in Run(hash, w0, before).folder
    ensures var w := Run(hash, w0, before);
            var w' := Run(hash, w, between);
            CurrentVersion(w) == CurrentVersion(w') ==> LoadManifest(w.folder) == LoadManifest(w'.folder)
  {
    FreshIsConsistent(hash, w0);
    LegalSplits(hash, w0, {}, before, between);
    RunKeepsInv(hash, w0, {}, before);
    var w := Run(hash, w0, before);
    NameStays(hash, w, IssuedAfter(hash, {}, w0, before), between, LoadManifest(w.folder).value);
  }

  // ---------------------------------------------------------------- a clock that only goes forward

  /** Dates never go back, and no day runs out of positive numbers. */
  predicate Forward(hash: Hash, w: World, last: string, events: seq<Event>)
    requires AllDigits(last)
    decreases |events|
  {
    events == [] ||
    (ForwardStep(w, last, events[0]) && Forward(hash, Step(hash, w, events[0]), Clock(last, events[0]), events[1..]))
  }

  predicate ForwardStep(w: World, last: string, e: Event)
    requires AllDigits(last)
  {
    e.PublishAt? ==>
      && IsDate(e.today) && DigitsValue(last) <= DigitsValue(e.today)
      && (IsVersion(CurrentVersion(w)) ==> NumberLeft(CurrentVersion(w), e.today))
  }

  function Clock(last: string, e: Event): string {
    if e.PublishAt? then e.today else last
  }

  function ClockAfter(last: string, events: seq<Event>): string
    decreases |events|
  {
    if events == [] then last else ClockAfter(Clock(last, events[0]), events[1..])
  }

  ghost predicate Dated(hash: Hash, w: World, last: string)
    requires AllDigits(last)
  {
    && ServerComplete(hash, w)
    && IsVersion(CurrentVersion(w)) && DateOf(CurrentVersion(w)) <= DigitsValue(last)
  }

  /** The publisher's manifest stays, or gives way to one with a strictly later version. */
  ghost predicate Advances(w: World, w': World) {
    && LoadManifest(w.folder).Ok? && LoadManifest(w'.folder).Ok?
    && IsVersion(CurrentVersion(w)) && IsVersion(CurrentVersion(w'))
    && (LoadManifest(w.folder) == LoadManifest(w'.folder) || Precedes(CurrentVersion(w), CurrentVersion(w')))
  }

  lemma StepAdvances(hash: Hash, w: World, last: string, e: Event)
    requires AllDigits(last) && Dated(hash, w, last) && ForwardStep(w, last, e)
    ensures Dated(hash, Step(hash, w, e), Clock(last, e)) && Advances(w, Step(hash, w, e))
  {
    if e.PublishAt? {
      PublishKeepsServerComplete(hash, w, e.today);
      var next := NextVersionIsLater(CurrentVersion(w), e.today);
    }
  }

  lemma {:induction false} RunAdvances(hash: Hash, w: World, last: string, events: seq<Event>)
    requires AllDigits(last) && Dated(hash, w, last) && Forward(hash, w, last, events)
    ensures AllDigits(ClockAfter(last, events)) && Dated(hash, Run(hash, w, events), ClockAfter(last, events))
    ensures Advances(w, Run(hash, w, events))
    decreases |events|
  {
    if events != [] {
      StepAdvances(hash, w, last, events[0]);
      RunAdvances(hash, Step(hash, w, events[0]), Clock(last, events[0]), events[1..]);
    }
  }

  lemma {:induction false} ForwardSplits(hash: Hash, w: World, last: string, before: seq<Event>, between: seq<Event>)
    requires AllDigits(last) && Forward(hash, w, last, before + between)
    ensures AllDigits(ClockAfter(last, before)) && Forward(hash, w, last, before)
    ensures Forward(hash, Run(hash, w, before), ClockAfter(last, before), between)
    decreases |before|
  {
    if before == [] {
      assert before + between == between;
    } else {
      ConcatSplits(before, between);
      ForwardSplits(hash, Step(hash, w, before[0]), Clock(last, before[0]), before[1..], between);
    }
  }

  /**
   With such a clock versions only advance: at any two moments the later manifest is the
   earlier one or has a strictly later version.
   */
  lemma VersionsNeverRepeat(hash: Hash, w0: World, before: seq<Event>, between: seq<Event>)
    requires Fresh(w0) && AllDigits(EPOCH) && Forward(hash, w0, EPOCH, before + between)
    ensures var w := Run(hash, w0, before);
            Advances(w, Run(hash, w, between))
  {
    InitialVersionIsVersion();
    ForwardSplits(hash, w0, EPOCH, before, between);
    RunAdvances(hash, w0, EPOCH, before);
    RunAdvances(hash, Run(hash, w0, before), ClockAfter(EPOCH, before), between);
  }

  predicate NotLater(a: string, b: string) {
    IsDate(a) && IsDate(b) && DigitsValue(a) <= DigitsValue(b)
  }

  lemma NotLaterTransitive(a: string, b: string, c: string)
    requires NotLater(a, b) && NotLater(b, c)
    ensures NotLater(a, c)
  {
  }

  /** Only equal dates are both not later than the other. */
  lemma NotLaterAntisymmetric(a: string, b: string)
    requires NotLater(a, b) && NotLater(b, a)
    ensures a == b
  {
    SameDayIsSameDate(a, b);
  }

  /** Every version given out has a positive number and is dated no later than the current one. */
  ghost predicate PastKeys(issued: set<Key>, current: Key) {
    forall k :: k in issued ==> k.number >= 1 && NotLater(k.date, current.date)
  }

  lemma ForwardIsFree(issued: set<Key>, current: Key, today: string)
    requires Issued(issued, current) && PastKeys(issued, current)
    requires NotLater(current.date, today) && (current.date == today ==> current.number < INT32_MAX)
    ensures VersionFree(issued, current, today)
  {
    if today != current.date {
      forall k | k in issued ensures k.date != today {
        if k.date == today {
          NotLaterAntisymmetric(today, current.date);
        }
      }
    }
  }

  lemma ForwardKeepsPast(issued: set<Key>, current: Key, today: string)
    requires Issued(issued, current) && PastKeys(issued, current)
    requires NotLater(current.date, today) && (current.date == today ==> current.number < INT32_MAX)
    ensures PastKeys(issued + {NextKey(current, today)}, NextKey(current, today))
  {
    forall k | k in issued ensures NotLater(k.date, today) {
      NotLaterTransitive(k.date, current.date, today);
    }
  }

  lemma {:induction false} ForwardIsLegal(hash: Hash, w: World, last: string, issued: set<Key>, events: seq<Event>)
    requires AllDigits(last) && Dated(hash, w, last) && Inv(hash, w, issued) && PastKeys(issued, KeyOf(CurrentVersion(w)))
    requires Forward(hash, w, last, events) && AllPossible(hash, w, events)
    ensures Legal(hash, w, issued, events)
    decreases |events|
  {
    if events != [] {
      var e := events[0];
      if e.PublishAt? {
        ForwardIsFree(issued, KeyOf(CurrentVersion(w)), e.today);
        ForwardKeepsPast(issued, KeyOf(CurrentVersion(w)), e.today);
        PublishKeepsServerComplete(hash, w, e.today);
        if Publishes(hash, w, e.today) {
          PublishIssues(hash, w, issued, e.today);
        }
      }
      StepAdvances(hash, w, last, e);
      StepKeepsInv(hash, w, issued, e);
      ForwardIsLegal(hash, Step(hash, w, e), Clock(last, e), IssuedBy(hash, issued, w, e), events[1..]);
    }
  }

  predicate AllPossible(hash: Hash, w: World, events: seq<Event>)
    decreases |events|
  {
    events == [] || (Possible(hash, w, events[0]) && AllPossible(hash, Step(hash, w, events[0]), events[1..]))
  }

  /** A clock that only goes forward keeps the guard, so everything above holds for it. */
  lemma ForwardClockIsLegal(hash: Hash, w0: World, events: seq<Event>)
    requires Fresh(w0) && AllDigits(EPOCH) && Forward(hash, w0, EPOCH, events) && AllPossible(hash, w0, events)
    ensures Legal(hash, w0, {}, events)
  {
    InitialVersionIsVersion();
    FreshIsConsistent(hash, w0);
    ForwardIsLegal(hash, w0, EPOCH, {}, events);
  }
}
