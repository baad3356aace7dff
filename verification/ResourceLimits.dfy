/**
 Where the guarantees of `ResourceHistory` end: what happens when a version is given out
 twice, when a launch is killed, and when one runs in the middle of a publish.
 */
module ResourceLimits {
  import opened Common
  import opened Version
  import opened ResourceUpdate
  import opened ResourceHistory

  // ---------------------------------------------------------------- a version given out twice

  predicate NoClient(events: seq<Event>) {
    forall i :: 0 <= i < |events| ==> events[i].Edit? || events[i].PublishAt?
  }

  /** Edits and publishes neither see nor touch the client's disk. */
  lemma {:induction false} DiskIsIdle(hash: Hash, w: World, events: seq<Event>, disk: Store)
    requires NoClient(events)
    ensures Run(hash, w.(disk := disk), events) == Run(hash, w, events).(disk := disk)
    decreases |events|
  {
    if events != [] {
      assert Step(hash, w.(disk := disk), events[0]) == Step(hash, w, events[0]).(disk := disk);
      assert forall i :: 0 <= i < |events[1..]| ==> events[1..][i] == events[i + 1];
      DiskIsIdle(hash, Step(hash, w, events[0]), events[1..], disk);
    }
  }

  ghost predicate Names(w: World, key: Key) {
    VERSION_JSON in w.folder && IsVersion(CurrentVersion(w)) && KeyOf(CurrentVersion(w)) == key
  }

  lemma RunPrefix(hash: Hash, w: World, events: seq<Event>, i: nat)
    requires i < |events|
    ensures Run(hash, w, events[..i + 1]) == Run(hash, Step(hash, w, events[0]), events[1..][..i])
  {
    assert events[..i + 1][1..] == events[1..][..i];
  }

  lemma FirstPublished(hash: Hash, w: World, issued: set<Key>, e: Event, key: Key)
    requires ServerComplete(hash, w) && (e.PublishAt? ==> IsDate(e.today)) && key !in issued && key in IssuedBy(hash, issued, w, e)
    ensures Names(Step(hash, w, e), key)
  {
    var next := UpdateIsNextKey(CurrentVersion(w), e.today);
    PublishKeepsServerComplete(hash, w, e.today);
  }

  predicate AllDated(events: seq<Event>) {
    forall i :: 0 <= i < |events| && events[i].PublishAt? ==> IsDate(events[i].today)
  }

  lemma {:induction false} LegalIsDated(hash: Hash, w: World, issued: set<Key>, events: seq<Event>)
    requires Legal(hash, w, issued, events)
    ensures AllDated(events)
    decreases |events|
  {
    if events != [] {
      LegalIsDated(hash, Step(hash, w, events[0]), IssuedBy(hash, issued, w, events[0]), events[1..]);
      assert forall i :: 1 <= i < |events| ==> events[i] == events[1..][i - 1];
    }
  }

  lemma DatedRest(events: seq<Event>)
    requires AllDated(events) && events != []
    ensures AllDated(events[1..]) && (events[0].PublishAt? ==> IsDate(events[0].today))
  {
    assert forall i :: 0 <= i < |events[1..]| ==> events[1..][i] == events[i + 1];
  }

  lemma NamedAfterFirst(hash: Hash, w: World, events: seq<Event>, i: nat, key: Key)
    requires i < |events| && Names(Run(hash, Step(hash, w, events[0]), events[1..][..i]), key)
    ensures Names(Run(hash, w, events[..i + 1]), key)
  {
    RunPrefix(hash, w, events, i);
  }

  lemma NamedAtFirst(hash: Hash, w: World, issued: set<Key>, events: seq<Event>, key: Key)
    requires events != [] && ServerComplete(hash, w) && AllDated(events)
    requires key !in issued && key in IssuedBy(hash, issued, w, events[0])
    ensures Names(Run(hash, w, events[..1]), key)
  {
    FirstPublished(hash, w, issued, events[0], key);
    RunFirst(hash, w, events);
  }

  lemma RunFirst(hash: Hash, w: World, events: seq<Event>)
    requires events != []
    ensures Run(hash, w, events[..1]) == Step(hash, w, events[0])
  {
    RunPrefix(hash, w, events, 0);
    assert events[1..][..0] == [];
  }

  /** A version that has been given out was the current one at some moment. */
  lemma {:induction false} WasCurrent(hash: Hash, w: World, issued: set<Key>, events: seq<Event>, key: Key) returns (j: nat)
    requires ServerComplete(hash, w) && AllDated(events)
    requires key in IssuedAfter(hash, issued, w, events) && key !in issued
    ensures j <= |events| && Names(Run(hash, w, events[..j]), key)
    decreases |events|
  {
    if key in IssuedBy(hash, issued, w, events[0]) {
      NamedAtFirst(hash, w, issued, events, key);
      j := 1;
    } else {
      DatedRest(events);
      StepKeepsServerComplete(hash, w, events[0]);
      j := WasCurrent(hash, Step(hash, w, events[0]), IssuedBy(hash, issued, w, events[0]), events[1..], key);
      NamedAfterFirst(hash, w, events, j, key);
      j := j + 1;
    }
  }

  /** What a client without files gets from a server that lists at least one. */
  lemma FirstLaunch(hash: Hash, w: World)
    requires ServerComplete(hash, w) && VERSION_JSON in w.server && w.disk == map[]
    requires IsVersion(CurrentVersion(w)) && LoadManifest(w.folder).value.md5 != map[]
    ensures var info, disk := LoadManifest(w.folder).value, Launch(hash, w).disk;
            && Launch(hash, w) == w.(disk := disk)
            && VERSION_JSON in disk && disk[VERSION_JSON] == Json(info)
            && forall f :: f != VERSION_JSON ==> (f in disk <==> f in info.md5) && (f in disk ==> hash(disk[f]) == info.md5[f])
  {
    var info := LoadManifest(w.folder).value;
    assert |info.version| > |NO_LOCAL_VERSION|;
    SyncInstalls(hash, w.disk, w.server, info.md5);
    SyncLeavesUnlisted(hash, w.disk, w.server, info);
    var f :| f in info.md5;
    assert f in QueueSet(hash, map[], info.md5);
  }

  /** Such a client skips once the version comes round, and then holds what both manifests agree on. */
  lemma StaleClient(hash: Hash, disk: Store, mine: VersionInfo, w: World)
    requires VERSION_JSON in disk && disk[VERSION_JSON] == Json(mine)
    requires forall f :: f != VERSION_JSON ==> (f in disk <==> f in mine.md5) && (f in disk ==> hash(disk[f]) == mine.md5[f])
    requires w.disk == disk && ServerComplete(hash, w) && VERSION_JSON in w.server && CurrentVersion(w) == mine.version
    ensures Skips(w)
    ensures var md5 := LatestManifest(w.server).value.md5;
            Holds(hash, w.disk, md5) <==> forall f :: f in md5 ==> f in mine.md5 && mine.md5[f] == md5[f]
  {
  }

  /** A client that launched at `first` skips at `last`, and holds what the two manifests agree on. */
  ghost predicate SkipsWithOldFiles(hash: Hash, first: World, last: World) {
    && LatestManifest(first.server).Ok? && LatestManifest(last.server).Ok?
    && var before, after := LatestManifest(first.server).value.md5, LatestManifest(last.server).value.md5;
       before != map[] ==>
         Skips(last) &&
         (Holds(hash, last.disk, after) <==> forall f :: f in after ==> f in before && before[f] == after[f])
  }

  lemma SameVersionLater(hash: Hash, first: World, end: World, key: Key, last: World)
    requires ServerComplete(hash, first) && ServerComplete(hash, end) && Names(first, key) && Names(end, key)
    requires first.disk == map[] && last == end.(disk := Launch(hash, first).disk)
    ensures SkipsWithOldFiles(hash, first, last)
  {
    KeyIsVersion(CurrentVersion(first), CurrentVersion(end));
    if LatestManifest(first.server).value.md5 != map[] {
      FirstLaunch(hash, first);
      var disk := Launch(hash, first).disk;
      StaleClient(hash, disk, LatestManifest(first.server).value, end.(disk := disk));
    }
  }

  /** A publish that changes something and breaks the guard. */
  predicate Reissues(hash: Hash, w: World, issued: set<Key>, today: string) {
    Publishes(hash, w, today) && IsVersion(CurrentVersion(w)) && !VersionFree(issued, KeyOf(CurrentVersion(w)), today)
  }

  /**
   The guard of `SkippingIsSafe` cannot be dropped.  Whenever a publish breaks it, there is a
   moment `j` at which a client without files could have launched: if there was anything to
   fetch it now skips, and it holds the published files exactly when each of them was in the
   old manifest with the same hash.
   */
  lemma ReissueBreaksSkipping(hash: Hash, w0: World, events: seq<Event>, today: string) returns (j: nat)
    requires Fresh(w0) && w0.disk == map[] && NoClient(events) && Legal(hash, w0, {}, events) && IsDate(today)
    requires Reissues(hash, Run(hash, w0, events), IssuedAfter(hash, {}, w0, events), today)
    ensures j <= |events|
    ensures SkipsWithOldFiles(hash, Run(hash, w0, events[..j]),
              Run(hash, w0, events[..j] + ([LaunchClient] + (events[j..] + [PublishAt(today)]))))
  {
    var w := Run(hash, w0, events);
    var key := NextKey(KeyOf(CurrentVersion(w)), today);
    ReissuedKey(hash, w0, events, today);
    j := MomentOf(hash, w0, events, key);
    LaunchBetween(hash, w0, events, j, today);
    var last := Run(hash, w0, events[..j] + ([LaunchClient] + (events[j..] + [PublishAt(today)])));
    SameVersionLater(hash, Run(hash, w0, events[..j]), Publish(hash, w, today), key, last);
  }

  lemma MomentOf(hash: Hash, w0: World, events: seq<Event>, key: Key) returns (j: nat)
    requires Fresh(w0) && NoClient(events) && Legal(hash, w0, {}, events) && key in IssuedAfter(hash, {}, w0, events)
    ensures j <= |events|
    ensures var first := Run(hash, w0, events[..j]);
            Names(first, key) && ServerComplete(hash, first) && first.disk == w0.disk
  {
    LegalIsDated(hash, w0, {}, events);
    j := WasCurrent(hash, w0, {}, events, key);
    RunKeepsServerComplete(hash, w0, events[..j]);
    DiskIsIdle(hash, w0, events[..j], w0.disk);
  }

  lemma LaunchBetween(hash: Hash, w: World, events: seq<Event>, j: nat, today: string)
    requires NoClient(events) && j <= |events|
    ensures Run(hash, w, events[..j] + ([LaunchClient] + (events[j..] + [PublishAt(today)]))) ==
            Publish(hash, Run(hash, w, events), today).(disk := Launch(hash, Run(hash, w, events[..j])).disk)
  {
    var before, after := events[..j], events[j..];
    assert events == before + after;
    RunConcat(hash, w, before, after);
    RunConcat(hash, w, before, [LaunchClient] + (after + [PublishAt(today)]));
    LaunchLater(hash, Run(hash, w, before), after, today);
  }

  lemma ReissuedKey(hash: Hash, w0: World, events: seq<Event>, today: string)
    requires Fresh(w0) && Legal(hash, w0, {}, events) && IsDate(today)
    requires Reissues(hash, Run(hash, w0, events), IssuedAfter(hash, {}, w0, events), today)
    ensures var w := Run(hash, w0, events);
            var key := NextKey(KeyOf(CurrentVersion(w)), today);
            && key in IssuedAfter(hash, {}, w0, events)
            && ServerComplete(hash, Publish(hash, w, today)) && Names(Publish(hash, w, today), key)
  {
    FreshIsConsistent(hash, w0);
    RunKeepsInv(hash, w0, {}, events);
    PublishIssues(hash, Run(hash, w0, events), IssuedAfter(hash, {}, w0, events), today);
    PublishKeepsServerComplete(hash, Run(hash, w0, events), today);
  }

  /** A launch before some edits and publishes only changes the disk they end with. */
  lemma LaunchLater(hash: Hash, w: World, events: seq<Event>, today: string)
    requires NoClient(events)
    ensures Run(hash, w, [LaunchClient] + (events + [PublishAt(today)])) ==
            Publish(hash, Run(hash, w, events), today).(disk := Launch(hash, w).disk)
  {
    var rest := events + [PublishAt(today)];
    assert ([LaunchClient] + rest)[1..] == rest;
    assert Launch(hash, w) == w.(disk := Launch(hash, w).disk);
    assert NoClient(rest);
    DiskIsIdle(hash, w, rest, Launch(hash, w).disk);
    RunConcat(hash, w, events, [PublishAt(today)]);
    assert [PublishAt(today)][1..] == [];
  }

  // ---------------------------------------------------------------- one published file

  /** One published file, at the given content and version. */
  predicate Serves(hash: Hash, w: World, version: string, file: string, content: Content) {
    && w.folder.Keys == {file, VERSION_JSON} && w.folder[file] == content
    && w.folder[VERSION_JSON] == Json(VersionInfo(version, map[file := hash(content)]))
    && VERSION_JSON in w.server && w.server[VERSION_JSON] == w.folder[VERSION_JSON]
    && file in w.server && w.server[file] == content
  }

  /** Before any publish: one file in the folder, and nothing anywhere else. */
  function OneFile(file: string, content: Content): World {
    World(map[file := content], map[], map[])
  }

  lemma PublishUploads(hash: Hash, w: World, today: string, current: VersionInfo, next: VersionInfo, f: string)
    requires LoadManifest(w.folder) == Ok(current) && UpdateVersion(current.version, today) == Ok(next.version)
    requires next.md5 == Hashes(hash, w.folder) && f in ChangedSet(current.md5, next.md5) && f in w.folder && f != VERSION_JSON
    ensures var w' := Publish(hash, w, today); f in w'.server && w'.server[f] == w.folder[f]
  {
    assert WithManifest(w.folder, next)[f] == w.folder[f];
  }

  lemma HashesOfOne(hash: Hash, folder: Store, file: string, content: Content)
    requires file != VERSION_JSON && file in folder && folder[file] == content && folder.Keys <= {file, VERSION_JSON}
    ensures Hashes(hash, folder) == map[file := hash(content)]
  {
  }

  /** Publishing a folder of one changed file, whatever the version strings are. */
  lemma PublishOneFile(hash: Hash, w: World, current: VersionInfo, version: string, file: string, content: Content, today: string)
    requires file != VERSION_JSON && LoadManifest(w.folder) == Ok(current) && UpdateVersion(current.version, today) == Ok(version)
    requires file in w.folder && w.folder[file] == content && w.folder.Keys <= {file, VERSION_JSON}
    requires Holds(hash, w.server, current.md5) && VERSION_JSON !in current.md5
    requires file !in current.md5 || current.md5[file] != hash(content)
    ensures var w' := Publish(hash, w, today);
            Serves(hash, w', version, file, content) && w'.disk == w.disk
  {
    var next := VersionInfo(version, map[file := hash(content)]);
    HashesOfOne(hash, w.folder, file, content);
    OneFileChanged(current.md5, file, hash(content));
    PublishInstalls(hash, w, today, current, next);
    PublishUploads(hash, w, today, current, next, file);
    ServesPublished(hash, Publish(hash, w, today), w.folder, version, file, content);
  }

  lemma OneFileChanged(before: Manifest, file: string, h: string)
    requires file !in before || before[file] != h
    ensures file in ChangedSet(before, map[file := h])
  {
  }

  lemma ServesPublished(hash: Hash, w: World, folder: Store, version: string, file: string, content: Content)
    requires file != VERSION_JSON && file in folder && folder[file] == content && folder.Keys <= {file, VERSION_JSON}
    requires w.folder == WithManifest(folder, VersionInfo(version, map[file := hash(content)]))
    requires VERSION_JSON in w.server && w.server[VERSION_JSON] == w.folder[VERSION_JSON]
    requires file in w.server && w.server[file] == content
    ensures Serves(hash, w, version, file, content)
  {
  }

  lemma PublishFirstFile(hash: Hash, file: string, content: Content, day: string)
    requires IsDate(day) && file != VERSION_JSON
    ensures var w := Publish(hash, OneFile(file, content), day);
            Serves(hash, w, Print(day, 1), file, content) && w.disk == map[]
  {
    var initial := Print(EPOCH, 0);
    FirstVersion(EPOCH, day);
    InitialIsPrinted();
    PublishOneFile(hash, OneFile(file, content), VersionInfo(initial, map[]), Print(day, 1), file, content, day);
  }

  lemma InitialIsPrinted()
    ensures IsDate(EPOCH) && INITIAL_VERSION == Print(EPOCH, 0)
  {
  }

  lemma FirstVersion(epoch: string, day: string)
    requires IsDate(epoch) && IsDate(day)
    ensures UpdateVersion(Print(epoch, 0), day) == Ok(Print(day, 1))
  {
    UpdateToNumber(epoch, 0, day, 1);
  }

  lemma RepublishOneFile(hash: Hash, w: World, date: string, n: Int32, file: string, before: Content, after: Content, today: string)
    requires IsDate(date) && IsDate(today) && date != today && file != VERSION_JSON && hash(before) != hash(after)
    requires Serves(hash, w, Print(date, n), file, before)
    ensures var w' := Publish(hash, w.(folder := EditFolder(w.folder, map[file := after])), today);
            Serves(hash, w', Print(today, 1), file, after) && w'.disk == w.disk
  {
    var edited := w.(folder := EditFolder(w.folder, map[file := after]));
    UpdateOfPrinted(date, n, today);
    var current := VersionInfo(Print(date, n), map[file := hash(before)]);
    PublishOneFile(hash, edited, current, Print(today, 1), file, after, today);
  }

  lemma LaunchFetchesFile(hash: Hash, w: World, date: string, n: Int32, file: string, content: Content)
    requires IsDate(date) && file != VERSION_JSON && Serves(hash, w, Print(date, n), file, content) && w.disk == map[]
    ensures var w' := Launch(hash, w);
            && w'.server == w.server && w'.folder == w.folder
            && w'.disk == map[file := content, VERSION_JSON := w.server[VERSION_JSON]]
  {
    var md5: Manifest := map[file := hash(content)];
    assert |Print(date, n)| > |NO_LOCAL_VERSION|;
    assert Withdrawn(map[], md5) == {};
    assert QueueSet(hash, map[], md5) == {file};
    assert w.disk - {} == map[];
  }

  lemma RunOfTwo(hash: Hash, w: World, e1: Event, e2: Event)
    ensures Run(hash, w, [e1, e2]) == Step(hash, Step(hash, w, e1), e2)
  {
    assert [e1, e2][1..] == [e2] && [e2][1..] == [];
    assert Run(hash, Step(hash, w, e1), [e2]) == Step(hash, Step(hash, w, e1), e2);
  }

  lemma RunOfFour(hash: Hash, w: World, e1: Event, e2: Event, e3: Event, e4: Event)
    ensures Run(hash, w, [e1, e2] + [e3, e4]) == Step(hash, Step(hash, Step(hash, Step(hash, w, e1), e2), e3), e4)
  {
    RunConcat(hash, w, [e1, e2], [e3, e4]);
    RunOfTwo(hash, w, e1, e2);
    RunOfTwo(hash, Step(hash, Step(hash, w, e1), e2), e3, e4);
  }

  // ---------------------------------------------------------------- a clock set back and forward

  /**
   From the very beginning: publish, launch, publish with the clock set back, publish with the
   clock set forward again.  The version string comes round, the launcher skips, and the file
   on disk is not the published one.
   */
  lemma ClockRollbackBreaksSkipping(hash: Hash, day: string, earlier: string, file: string, a: Content, b: Content, c: Content)
    requires IsDate(day) && IsDate(earlier) && day != earlier && file != VERSION_JSON
    requires hash(a) != hash(b) && hash(b) != hash(c) && hash(a) != hash(c)
    ensures Fresh(OneFile(file, a))
    ensures var w := Run(hash, OneFile(file, a),
              [PublishAt(day), LaunchClient] +
              ([Edit(map[file := b]), PublishAt(earlier)] + [Edit(map[file := c]), PublishAt(day)]));
            Skips(w) && LatestManifest(w.server).Ok? && !Holds(hash, w.disk, LatestManifest(w.server).value.md5)
  {
    var w0 := OneFile(file, a);
    var rest := [Edit(map[file := b]), PublishAt(earlier)] + [Edit(map[file := c]), PublishAt(day)];
    RunConcat(hash, w0, [PublishAt(day), LaunchClient], rest);
    RunOfTwo(hash, w0, PublishAt(day), LaunchClient);
    PublishFirstFile(hash, file, a, day);
    var w1 := Publish(hash, w0, day);
    LaunchFetchesFile(hash, w1, day, 1, file, a);
    RepublishTwice(hash, Launch(hash, w1), day, earlier, file, a, b, c);
  }

  lemma RepublishTwice(hash: Hash, w: World, day: string, earlier: string, file: string, a: Content, b: Content, c: Content)
    requires IsDate(day) && IsDate(earlier) && day != earlier && file != VERSION_JSON
    requires hash(a) != hash(b) && hash(b) != hash(c) && hash(a) != hash(c)
    requires Serves(hash, w, Print(day, 1), file, a) && w.disk == map[file := a, VERSION_JSON := w.server[VERSION_JSON]]
    ensures var w' := Run(hash, w, [Edit(map[file := b]), PublishAt(earlier)] + [Edit(map[file := c]), PublishAt(day)]);
            Skips(w') && LatestManifest(w'.server).Ok? && !Holds(hash, w'.disk, LatestManifest(w'.server).value.md5)
  {
    RepublishOneFile(hash, w, day, 1, file, a, b, earlier);
    var w2 := Step(hash, Step(hash, w, Edit(map[file := b])), PublishAt(earlier));
    RepublishOneFile(hash, w2, earlier, 1, file, b, c, day);
    var w4 := Step(hash, Step(hash, w2, Edit(map[file := c])), PublishAt(day));
    RunOfFour(hash, w, Edit(map[file := b]), PublishAt(earlier), Edit(map[file := c]), PublishAt(day));
    assert file in LatestManifest(w4.server).value.md5;
  }

  // ---------------------------------------------------------------- a killed launch

  /** Publishing an emptied folder leaves the server with an empty manifest. */
  lemma WithdrawOneFile(hash: Hash, w: World, date: string, n: Int32, file: string, content: Content, today: string)
    requires IsDate(date) && IsDate(today) && date != today && file != VERSION_JSON
    requires Serves(hash, w, Print(date, n), file, content)
    ensures var w' := Publish(hash, w.(folder := EditFolder(w.folder, map[])), today);
            w'.disk == w.disk && LatestManifest(w'.server) == Ok(VersionInfo(Print(today, 1), map[]))
  {
    var edited := w.(folder := EditFolder(w.folder, map[]));
    UpdateOfPrinted(date, n, today);
    var current := VersionInfo(Print(date, n), map[file := hash(content)]);
    assert Hashes(hash, edited.folder) == map[];
    assert file in ChangedSet(current.md5, map[]);
    PublishInstalls(hash, edited, today, current, VersionInfo(Print(today, 1), map[]));
  }

  lemma KillIsPossible(hash: Hash, w: World, date: string, n: Int32, file: string, content: Content)
    requires IsDate(date) && file != VERSION_JSON && Serves(hash, w, Print(date, n), file, content) && w.disk == map[]
    ensures Possible(hash, w, KillClient(map[file := content]))
  {
    assert |Print(date, n)| > |NO_LOCAL_VERSION|;
    assert file in QueueSet(hash, w.disk, LatestManifest(w.server).value.md5);
  }

  lemma SyncToNothing(hash: Hash, w: World)
    requires VERSION_JSON !in w.disk && LatestManifest(w.server).Ok? && LatestManifest(w.server).value.md5 == map[]
    ensures Launch(hash, w) == w
  {
    assert Withdrawn(w.disk, map[]) == {};
    assert w.disk - {} == w.disk;
  }

  /**
   A client killed after fetching a file but before `version.json` has no record of it;
   when the file is then withdrawn, the next full sync leaves it on the disk.
   */
  lemma KilledDownloadStays(hash: Hash, day: string, later: string, file: string, content: Content)
    requires IsDate(day) && IsDate(later) && day != later && file != VERSION_JSON
    ensures Fresh(OneFile(file, content))
    ensures Possible(hash, Publish(hash, OneFile(file, content), day), KillClient(map[file := content]))
    ensures var w := Run(hash, Publish(hash, OneFile(file, content), day),
              [KillClient(map[file := content]), Edit(map[])] + [PublishAt(later), LaunchClient]);
            file in w.disk && LatestManifest(w.server).Ok? && file !in LatestManifest(w.server).value.md5
  {
    PublishFirstFile(hash, file, content, day);
    KillIsPossible(hash, Publish(hash, OneFile(file, content), day), day, 1, file, content);
    KillThenWithdraw(hash, Publish(hash, OneFile(file, content), day), day, 1, file, content, later);
  }

  lemma KillThenWithdraw(hash: Hash, w: World, date: string, n: Int32, file: string, content: Content, later: string)
    requires IsDate(date) && IsDate(later) && date != later && file != VERSION_JSON
    requires Serves(hash, w, Print(date, n), file, content) && w.disk == map[]
    ensures var w' := Run(hash, w, [KillClient(map[file := content]), Edit(map[])] + [PublishAt(later), LaunchClient]);
            file in w'.disk && LatestManifest(w'.server).Ok? && file !in LatestManifest(w'.server).value.md5
  {
    var kill := KillClient(map[file := content]);
    var killed := w.(disk := map[file := content]);
    WithdrawOneFile(hash, killed, date, n, file, content, later);
    SyncToNothing(hash, Publish(hash, killed.(folder := EditFolder(killed.folder, map[])), later));
    RunOfFour(hash, w, kill, Edit(map[]), PublishAt(later), LaunchClient);
  }

  // ---------------------------------------------------------------- a launch in the middle of a publish

  /**
   A launch between the upload of a changed file and that of `version.json` ends without the
   files of the manifest it was served, and the next launch skips; once the publish is over,
   a launch installs everything.  `SyncSucceedsExactly` says when such a launch does succeed.
   */
  lemma LaunchDuringPublish(hash: Hash, w: World, date: string, n: Int32, file: string, a: Content, b: Content, today: string)
    requires IsDate(date) && IsDate(today) && date != today && file != VERSION_JSON && hash(a) != hash(b)
    requires Serves(hash, w, Print(date, n), file, a) && w.disk == map[]
    ensures var after := Publish(hash, w.(folder := EditFolder(w.folder, map[file := b])), today);
            var seen := w.(server := w.server[file := b]);
            var launched := Launch(hash, seen);
            && MidPublish(w.server, after.server, seen.server)
            && LatestManifest(seen.server).Ok? && LatestManifest(after.server).Ok?
            && Skips(launched) && !Holds(hash, launched.disk, LatestManifest(seen.server).value.md5)
            && Holds(hash, Launch(hash, after.(disk := launched.disk)).disk, LatestManifest(after.server).value.md5)
  {
    RepublishOneFile(hash, w, date, n, file, a, b, today);
    LaunchFetchesReplaced(hash, w, date, n, file, a, b);
    var edited := w.(folder := EditFolder(w.folder, map[file := b]));
    var after := Publish(hash, edited, today);
    assert after.server == w.server[file := b][VERSION_JSON := after.server[VERSION_JSON]] by {
      UpdateOfPrinted(date, n, today);
      var current := VersionInfo(Print(date, n), map[file := hash(a)]);
      PublishedStore(hash, edited, current, Print(today, 1), file, b, today);
    }
    var disk := Launch(hash, w.(server := w.server[file := b])).disk;
    assert Print(date, n)[..8] == date && Print(today, 1)[..8] == today;
    SyncInstalls(hash, disk, after.server, map[file := hash(b)]);
  }

  lemma LaunchFetchesReplaced(hash: Hash, w: World, date: string, n: Int32, file: string, a: Content, b: Content)
    requires IsDate(date) && file != VERSION_JSON && hash(a) != hash(b)
    requires Serves(hash, w, Print(date, n), file, a) && w.disk == map[]
    ensures var seen := w.(server := w.server[file := b]);
            Launch(hash, seen).disk == map[file := b, VERSION_JSON := w.server[VERSION_JSON]] && Launch(hash, seen).server == seen.server
  {
    var md5: Manifest := map[file := hash(a)];
    assert |Print(date, n)| > |NO_LOCAL_VERSION|;
    assert Withdrawn(map[], md5) == {};
    assert QueueSet(hash, map[], md5) == {file};
    assert w.disk - {} == map[];
  }

  lemma PublishedStore(hash: Hash, w: World, current: VersionInfo, version: string, file: string, b: Content, today: string)
    requires file != VERSION_JSON && LoadManifest(w.folder) == Ok(current) && UpdateVersion(current.version, today) == Ok(version)
    requires file in w.folder && w.folder[file] == b && w.folder.Keys <= {file, VERSION_JSON}
    requires current.md5.Keys == {file} && current.md5[file] != hash(b)
    ensures var after := Publish(hash, w, today);
            VERSION_JSON in after.server && after.server == w.server[file := b][VERSION_JSON := after.server[VERSION_JSON]]
  {
    HashesOfOne(hash, w.folder, file, b);
    assert ChangedSet(current.md5, map[file := hash(b)]) == {file};
  }
}
