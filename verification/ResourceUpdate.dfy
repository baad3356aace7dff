/**
 The resource update protocol: a publisher folder, a server store and a client
 disk, each a map from file name to content, and the two operations that move
 content between them.  MD5 is any function from contents to strings.
 */
module ResourceUpdate {
  import opened Common
  import opened Version

  const VERSION_JSON: string := "version.json"
  const NO_LOCAL_VERSION: string := "0.0"

  type Manifest = map<string, string>

  datatype VersionInfo = VersionInfo(version: string, md5: Manifest)

  /** A file holds a `version.json` document or anything else. */
  datatype Content = Json(info: VersionInfo) | Raw(bytes: seq<int>)

  type Store = map<string, Content>

  type Hash = Content -> string

  /** Every entry of the manifest has a file with that hash. */
  predicate Holds(hash: Hash, files: Store, md5: Manifest) {
    forall f :: f in md5 ==> f in files && hash(files[f]) == md5[f]
  }

  // ---------------------------------------------------------------- publishing

  function Hashes(hash: Hash, folder: Store): Manifest {
    map f | f in folder && f != VERSION_JSON :: hash(folder[f])
  }

  /** Added or modified files, and deleted ones. */
  function ChangedSet(before: Manifest, after: Manifest): set<string> {
    (set f | f in after && (f !in before || before[f] != after[f])) + (set f | f in before && f !in after)
  }

  /** The entry of one changed file, as the publisher updates it. */
  function PatchOne(m: Manifest, after: Manifest, file: string): Manifest {
    if file in after then m[file := after[file]] else m - {file}
  }

  function Patch(m: Manifest, after: Manifest, changed: seq<string>): Manifest
    decreases |changed|
  {
    if changed == [] then m else Patch(PatchOne(m, after, changed[0]), after, changed[1..])
  }

  lemma {:induction false} PatchedEntries(m: Manifest, after: Manifest, changed: seq<string>)
    ensures forall f :: f in Patch(m, after, changed) <==> if f in changed then f in after else f in m
    ensures forall f :: f in Patch(m, after, changed) ==>
              Patch(m, after, changed)[f] == if f in changed then after[f] else m[f]
    decreases |changed|
  {
    if changed != [] {
      PatchedEntries(PatchOne(m, after, changed[0]), after, changed[1..]);
      assert forall f :: f in changed <==> f == changed[0] || f in changed[1..];
    }
  }

  /** Any list of exactly the changed files patches the old manifest into the new one. */
  lemma PatchReachesNewHashes(before: Manifest, after: Manifest, changed: seq<string>)
    requires forall f :: f in changed <==> f in ChangedSet(before, after)
    ensures Patch(before, after, changed) == after
  {
    PatchedEntries(before, after, changed);
  }

  /** Nothing is published exactly when nothing changed, and what is published is what changed. */
  lemma NoChangeMeansEqual(before: Manifest, after: Manifest)
    ensures ChangedSet(before, after) == {} <==> before == after
    ensures forall f :: f !in ChangedSet(before, after) <==>
              (f in before <==> f in after) && (f in before && f in after ==> before[f] == after[f])
  {
    if ChangedSet(before, after) == {} {
      forall f | f in after ensures f in before && before[f] == after[f] {
        assert f !in ChangedSet(before, after);
      }
      forall f | f in before ensures f in after {
        assert f !in ChangedSet(before, after);
      }
    }
  }

  /**
   `target` after copying `files` from `source` one by one, in order; a file missing
   from the source is skipped.  Uploads copy from the folder, downloads from the server.
   */
  function CopyAll(target: Store, source: Store, files: seq<string>): Store {
    if files == [] then target
    else
      var last := files[|files| - 1];
      var before := CopyAll(target, source, files[..|files| - 1]);
      if last in source then before[last := source[last]] else before
  }

  lemma {:induction false} CopiedEntries(target: Store, source: Store, files: seq<string>)
    ensures forall f :: f in CopyAll(target, source, files) <==> f in target || (f in files && f in source)
    ensures forall f :: f in CopyAll(target, source, files) ==>
              CopyAll(target, source, files)[f] == if f in files && f in source then source[f] else target[f]
  {
    if files != [] {
      var last := files[|files| - 1];
      CopiedEntries(target, source, files[..|files| - 1]);
      assert forall f :: f in files <==> f == last || f in files[..|files| - 1];
    }
  }

  /** Copying in any order, with or without repeats, amounts to one map union. */
  lemma CopyAllIsUnion(target: Store, source: Store, files: seq<string>, names: set<string>)
    requires forall f :: f in files <==> f in names
    ensures CopyAll(target, source, files) == target + map f | f in source && f in names :: source[f]
  {
    CopiedEntries(target, source, files);
  }

  /** What `target` holds after each copy, in order. */
  function Copies(target: Store, source: Store, files: seq<string>): seq<Store> {
    if files == [] then []
    else
      Copies(target, source, files[..|files| - 1]) +
      if files[|files| - 1] in source then [CopyAll(target, source, files)] else []
  }

  /** Each of them is the result of copying some first part of the list. */
  lemma {:induction false} CopiesArePrefixes(target: Store, source: Store, files: seq<string>, k: nat) returns (i: nat)
    requires k < |Copies(target, source, files)|
    ensures i <= |files| && Copies(target, source, files)[k] == CopyAll(target, source, files[..i])
  {
    var before := files[..|files| - 1];
    if k < |Copies(target, source, before)| {
      i := CopiesArePrefixes(target, source, before, k);
      assert before[..i] == files[..i];
    } else {
      i := |files|;
      assert files[..i] == files;
    }
  }

  function CopyOne(target: Store, source: Store, file: string): Store {
    if file in source then target[file := source[file]] else target
  }

  /** Copying may as well be followed from the front of the list. */
  lemma {:induction false} CopyFirst(target: Store, source: Store, files: seq<string>)
    requires files != []
    ensures CopyAll(target, source, files) == CopyAll(CopyOne(target, source, files[0]), source, files[1..])
    ensures Copies(target, source, files) ==
            (if files[0] in source then [CopyOne(target, source, files[0])] else []) +
            Copies(CopyOne(target, source, files[0]), source, files[1..])
  {
    var n := |files| - 1;
    if n == 0 {
      assert files[..0] == [] && files[1..] == [];
      assert CopyAll(target, source, files) == CopyOne(target, source, files[0]);
    } else {
      CopyFirst(target, source, files[..n]);
      assert files[..n][0] == files[0] && files[..n][1..] == files[1..][..n - 1];
      assert files[1..][n - 1] == files[n];
    }
  }

  function LoadManifest(folder: Store): Outcome<VersionInfo> {
    if VERSION_JSON !in folder then Ok(VersionInfo(INITIAL_VERSION, map[]))
    else if folder[VERSION_JSON].Json? then Ok(folder[VERSION_JSON].info)
    else Failed
  }

  /** What the next `version.json` holds, when there is something to publish. */
  function NextManifest(hash: Hash, folder: Store, today: string): Outcome<VersionInfo> {
    match LoadManifest(folder)
    case Failed => Failed
    case Ok(info) =>
      match UpdateVersion(info.version, today)
      case Failed => Failed
      case Ok(v) => Ok(VersionInfo(v, Hashes(hash, folder)))
  }

  datatype World = World(folder: Store, server: Store, disk: Store)

  function WithManifest(s: Store, info: VersionInfo): Store {
    s[VERSION_JSON := Json(info)]
  }

  /** One run of the publisher; an exception leaves everything as it was. */
  function Publish(hash: Hash, w: World, today: string): World {
    match LoadManifest(w.folder)
    case Failed => w
    case Ok(old_) =>
      var changed := ChangedSet(old_.md5, Hashes(hash, w.folder));
      if changed == {} then w
      else
        match NextManifest(hash, w.folder, today)
        case Failed => w
        case Ok(info) =>
          var folder := WithManifest(w.folder, info);
          w.(folder := folder,
             server := w.server + map f | f in folder && (f in changed || f == VERSION_JSON) :: folder[f])
  }

  /** Files unchanged in this publish are covered by earlier uploads, the others by this one. */
  lemma UploadsCoverManifest(hash: Hash, server: Store, folder: Store, before: Manifest, info: VersionInfo)
    requires Holds(hash, server, before) && VERSION_JSON !in before && info.md5 == Hashes(hash, folder)
    ensures var folder' := WithManifest(folder, info);
            var changed := ChangedSet(before, info.md5);
            Holds(hash, server + map f | f in folder' && (f in changed || f == VERSION_JSON) :: folder'[f], info.md5)
  {
    var changed := ChangedSet(before, info.md5);
    forall f | f in info.md5 && f !in changed ensures f in before && before[f] == info.md5[f] {
    }
  }

  /** Before the last upload the server still serves the old `version.json`, if any. */
  lemma OldManifestUntilLast(server: Store, folder: Store, files: seq<string>)
    requires VERSION_JSON !in files
    ensures var seen := CopyAll(server, folder, files);
            (VERSION_JSON in seen <==> VERSION_JSON in server) &&
            (VERSION_JSON in server ==> seen[VERSION_JSON] == server[VERSION_JSON])
  {
    CopiedEntries(server, folder, files);
  }

  /** After the last upload the server serves the new manifest and every file it lists. */
  lemma NewManifestAtEnd(hash: Hash, server: Store, folder: Store, before: Manifest, info: VersionInfo, changed: seq<string>)
    requires Holds(hash, server, before) && VERSION_JSON !in before && info.md5 == Hashes(hash, folder)
    requires forall f :: f in changed <==> f in ChangedSet(before, info.md5)
    ensures var seen := CopyAll(server, WithManifest(folder, info), changed + [VERSION_JSON]);
            VERSION_JSON in seen && seen[VERSION_JSON] == Json(info) && Holds(hash, seen, info.md5)
  {
    var changedSet := ChangedSet(before, info.md5);
    var folder' := WithManifest(folder, info);
    CopyAllIsUnion(server, folder', changed + [VERSION_JSON], changedSet + {VERSION_JSON});
    UploadsCoverManifest(hash, server, folder, before, info);
    assert (map f | f in folder' && f in changedSet + {VERSION_JSON} :: folder'[f]) ==
           (map f | f in folder' && (f in changedSet || f == VERSION_JSON) :: folder'[f]);
  }

  /**
   Seen from outside after `i` of the uploads: until the last one the old `version.json`
   is served; whoever is served a different one is served the new one and finds every
   file it lists.
   */
  lemma NewManifestComesLast(hash: Hash, server: Store, folder: Store, before: Manifest, info: VersionInfo,
                             changed: seq<string>, i: nat)
    requires Holds(hash, server, before) && VERSION_JSON !in before && info.md5 == Hashes(hash, folder)
    requires forall f :: f in changed <==> f in ChangedSet(before, info.md5)
    requires i <= |changed| + 1
    ensures var seen := CopyAll(server, WithManifest(folder, info), (changed + [VERSION_JSON])[..i]);
            && (i <= |changed| ==>
                  (VERSION_JSON in seen <==> VERSION_JSON in server) &&
                  (VERSION_JSON in server ==> seen[VERSION_JSON] == server[VERSION_JSON]))
            && (VERSION_JSON in seen && (VERSION_JSON !in server || seen[VERSION_JSON] != server[VERSION_JSON]) ==>
                  seen[VERSION_JSON] == Json(info) && Holds(hash, seen, info.md5))
  {
    var files := changed + [VERSION_JSON];
    if i <= |changed| {
      assert files[..i] == changed[..i];
      assert forall f :: f in changed[..i] ==> f in changed;
      OldManifestUntilLast(server, WithManifest(folder, info), changed[..i]);
    } else {
      assert files[..i] == files;
      NewManifestAtEnd(hash, server, folder, before, info, changed);
    }
  }

  /**
   What the server may hold while a publish is under way: nothing is missing, each file is
   the one from before or the one that is to come, and the new `version.json` is there only
   when everything else is.
   */
  ghost predicate MidPublish(before: Store, after: Store, seen: Store) {
    && before.Keys <= seen.Keys
    && (forall f :: f in seen ==> (f in before && seen[f] == before[f]) || (f in after && seen[f] == after[f]))
    && (seen == after
        || ((VERSION_JSON in seen <==> VERSION_JSON in before)
            && (VERSION_JSON in before ==> seen[VERSION_JSON] == before[VERSION_JSON])))
  }

  /** After any number of the uploads the server is in such a state. */
  lemma UploadsAreMidPublish(server: Store, source: Store, changed: seq<string>, i: nat)
    requires VERSION_JSON !in changed && i <= |changed| + 1
    ensures var files := changed + [VERSION_JSON];
            MidPublish(server, CopyAll(server, source, files), CopyAll(server, source, files[..i]))
  {
    var files := changed + [VERSION_JSON];
    CopiedEntries(server, source, files);
    CopiedEntries(server, source, files[..i]);
    assert forall f :: f in files[..i] ==> f in files;
    if i == |files| {
      assert files[..i] == files;
    } else {
      assert files[..i] == changed[..i];
      assert forall f :: f in changed[..i] ==> f in changed;
    }
  }

  // ---------------------------------------------------------------- launching

  function LocalVersion(disk: Store): string {
    if VERSION_JSON in disk && disk[VERSION_JSON].Json? then disk[VERSION_JSON].info.version else NO_LOCAL_VERSION
  }

  function LocalFiles(disk: Store): set<string> {
    if VERSION_JSON in disk && disk[VERSION_JSON].Json? then disk[VERSION_JSON].info.md5.Keys else {}
  }

  /** The version endpoint answers `{}` when nothing has been published; other contents do not parse. */
  function LatestManifest(server: Store): Outcome<VersionInfo> {
    if VERSION_JSON !in server then Ok(VersionInfo("", map[]))
    else if server[VERSION_JSON].Json? then Ok(server[VERSION_JSON].info)
    else Failed
  }

  predicate NeedsDownload(hash: Hash, disk: Store, md5: Manifest, file: string)
    requires file in md5
  {
    file !in disk || hash(disk[file]) != md5[file]
  }

  function Withdrawn(disk: Store, md5: Manifest): set<string> {
    set f | f in disk && f in LocalFiles(disk) && f !in md5
  }

  function QueueSet(hash: Hash, disk: Store, md5: Manifest): set<string> {
    set f | f in md5 && NeedsDownload(hash, disk, md5, f)
  }

  /** Delete what the manifest dropped, download what differs, and last of all `version.json`. */
  function Sync(hash: Hash, disk: Store, server: Store, md5: Manifest): Store {
    var kept := disk - Withdrawn(disk, md5);
    var queue := QueueSet(hash, kept, md5);
    if queue == {} then kept
    else kept + map f | f in server && (f in queue || f == VERSION_JSON) :: server[f]
  }

  predicate Skips(w: World) {
    LatestManifest(w.server).Ok? && LatestManifest(w.server).value.version == LocalVersion(w.disk)
  }

  function Launch(hash: Hash, w: World): World {
    match LatestManifest(w.server)
    case Failed => w
    case Ok(latest) =>
      if latest.version == LocalVersion(w.disk) then w
      else w.(disk := Sync(hash, w.disk, w.server, latest.md5))
  }

  // ---------------------------------------------------------------- one sync

  /** From any disk: the manifest's files arrive, withdrawn files go, unnamed files stay, a second sync does nothing. */
  lemma SyncInstalls(hash: Hash, disk: Store, server: Store, md5: Manifest)
    requires Holds(hash, server, md5) && VERSION_JSON !in md5
    ensures var after := Sync(hash, disk, server, md5);
            && Holds(hash, after, md5)
            && (forall f :: f in LocalFiles(disk) && f !in md5 && f != VERSION_JSON ==> f !in after)
            && (forall f :: f !in LocalFiles(disk) && f !in md5 && f != VERSION_JSON ==>
                  (f in after <==> f in disk) && (f in disk ==> after[f] == disk[f]))
            && QueueSet(hash, after, md5) == {}
            && (forall f :: f in md5 && f in disk && hash(disk[f]) == md5[f] ==> after[f] == disk[f])
            && (VERSION_JSON in LocalFiles(disk) ||
                if Holds(hash, disk, md5) then VERSION_JSON in after <==> VERSION_JSON in disk
                else VERSION_JSON in server ==> VERSION_JSON in after && after[VERSION_JSON] == server[VERSION_JSON])
  {
    var kept := disk - Withdrawn(disk, md5);
    var queue := QueueSet(hash, kept, md5);
    var after := Sync(hash, disk, server, md5);
    forall f | f in md5 ensures f in after && hash(after[f]) == md5[f] {
      if f !in queue {
        assert !NeedsDownload(hash, kept, md5, f);
      }
    }
    if !Holds(hash, disk, md5) {
      var f :| f in md5 && !(f in disk && hash(disk[f]) == md5[f]);
      assert f in queue;
    }
  }

  /** Names on the disk that no local manifest accounts for. */
  function Unlisted(disk: Store): set<string> {
    set f | f in disk && f !in LocalFiles(disk) && f != VERSION_JSON
  }

  /**
   Exactly what a sync leaves beside the published files: the names nothing accounted for.
   Afterwards those that are published now are accounted for, provided something was fetched.
   */
  lemma SyncLeavesUnlisted(hash: Hash, disk: Store, server: Store, info: VersionInfo)
    requires VERSION_JSON in server && server[VERSION_JSON] == Json(info)
    requires Holds(hash, server, info.md5) && VERSION_JSON !in info.md5 && VERSION_JSON !in LocalFiles(disk)
    ensures var after := Sync(hash, disk, server, info.md5);
            && (forall f :: f !in info.md5 && f != VERSION_JSON ==> (f in after <==> f in Unlisted(disk)))
            && Unlisted(after) == if QueueSet(hash, disk, info.md5) == {} then Unlisted(disk) else Unlisted(disk) - info.md5.Keys
  {
    var kept := disk - Withdrawn(disk, info.md5);
    var after := Sync(hash, disk, server, info.md5);
    assert QueueSet(hash, kept, info.md5) == QueueSet(hash, disk, info.md5);
    if QueueSet(hash, disk, info.md5) == {} {
      assert LocalFiles(kept) == LocalFiles(disk);
    } else {
      assert LocalFiles(after) == info.md5.Keys;
    }
  }

  /**
   A sync against any store that has the manifest's files, such as one in the middle of a
   publish, succeeds exactly when every file it has to fetch is still the one listed.
   */
  lemma SyncSucceedsExactly(hash: Hash, disk: Store, seen: Store, md5: Manifest)
    requires VERSION_JSON !in md5 && forall f :: f in md5 ==> f in seen
    ensures Holds(hash, Sync(hash, disk, seen, md5), md5) <==>
            forall f :: f in QueueSet(hash, disk, md5) ==> hash(seen[f]) == md5[f]
  {
    var kept := disk - Withdrawn(disk, md5);
    var after := Sync(hash, disk, seen, md5);
    assert QueueSet(hash, kept, md5) == QueueSet(hash, disk, md5);
    forall f | f in md5
      ensures f in after
      ensures hash(after[f]) == md5[f] <==> (f in QueueSet(hash, disk, md5) ==> hash(seen[f]) == md5[f])
    {
      if f !in QueueSet(hash, kept, md5) {
        assert !NeedsDownload(hash, kept, md5, f);
      }
    }
  }

  // ---------------------------------------------------------------- a sync cut short

  /**
   A disk that a sync stopped before its last download can leave behind: some of the
   deletions and downloads are done, and `version.json` is still the one from before.
   */
  predicate Partial(hash: Hash, disk: Store, server: Store, md5: Manifest, left: Store) {
    && (VERSION_JSON in left <==> VERSION_JSON in disk)
    && (VERSION_JSON in disk ==> left[VERSION_JSON] == disk[VERSION_JSON])
    && (forall f :: f in disk && f !in left ==> f in Withdrawn(disk, md5))
    && (forall f :: f in left && (f !in disk || left[f] != disk[f]) ==>
          f in QueueSet(hash, disk, md5) && f in server && left[f] == server[f])
  }

  lemma PartlyDeleted(hash: Hash, disk: Store, server: Store, md5: Manifest, gone: set<string>)
    requires gone <= Withdrawn(disk, md5) && VERSION_JSON !in LocalFiles(disk)
    ensures Partial(hash, disk, server, md5, disk - gone)
  {
  }

  lemma PartlyDownloaded(hash: Hash, disk: Store, server: Store, md5: Manifest, done: seq<string>)
    requires VERSION_JSON !in LocalFiles(disk) && VERSION_JSON !in md5
    requires forall f :: f in done ==> f in QueueSet(hash, disk - Withdrawn(disk, md5), md5)
    ensures Partial(hash, disk, server, md5, CopyAll(disk - Withdrawn(disk, md5), server, done))
  {
    CopiedEntries(disk - Withdrawn(disk, md5), server, done);
  }

  /**
   What a client killed at any moment of a sync can leave behind.  Unlike above the file
   being written may be torn: its content is anything, and a torn `version.json` does not parse.
   */
  predicate Killed(hash: Hash, disk: Store, md5: Manifest, left: Store) {
    && (VERSION_JSON in disk ==> VERSION_JSON in left)
    && (VERSION_JSON in left ==>
          || (VERSION_JSON in disk && left[VERSION_JSON] == disk[VERSION_JSON])
          || (left[VERSION_JSON].Raw? && QueueSet(hash, disk, md5) != {}))
    && (forall f :: f in disk && f !in left ==> f in Withdrawn(disk, md5))
    && (forall f :: f in left && f != VERSION_JSON && (f !in disk || left[f] != disk[f]) ==> f in QueueSet(hash, disk, md5))
  }

  lemma PartialIsKilled(hash: Hash, disk: Store, server: Store, md5: Manifest, left: Store)
    requires Partial(hash, disk, server, md5, left)
    ensures Killed(hash, disk, md5, left)
  {
  }
}
