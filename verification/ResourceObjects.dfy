/** The server, the publisher and the launcher, working in place on their stores. */
module ResourceObjects {
  import opened Common
  import opened Version
  import opened ResourceUpdate
  import opened ResourceHistory

  /** One platform's resource directory behind the upload, version and download endpoints. */
  class ResourceServer {
    var files: Store
    /** What the server has held after each upload. */
    ghost var past: seq<Store>

    method Upload(name: string, content: Content)
      modifies this
      ensures files == old(files)[name := content] && past == old(past) + [files]
    {
      files := files[name := content];
      past := past + [files];
    }

    method Download(name: string) returns (reply: Option<Content>)
      ensures reply == if name in files then Some(files[name]) else None
    {
      reply := if name in files then Some(files[name]) else None;
    }
  }

  class Publisher {
    var folder: Store

    method CalculateFolderHashes(hash: Hash) returns (hashes: Manifest)
      ensures hashes == Hashes(hash, folder)
    {
      hashes := map[];
      var todo := folder.Keys;
      while todo != {}
        invariant todo <= folder.Keys
        invariant hashes == map f | f in folder && f !in todo && f != VERSION_JSON :: hash(folder[f])
      {
        var file :| file in todo;
        todo := todo - {file};
        if file != VERSION_JSON {
          hashes := hashes[file := hash(folder[file])];
        }
      }
    }

    /** The change list: no duplicates, and exactly the files whose entry differs. */
    method GetChangedFiles(before: Manifest, after: Manifest) returns (changed: seq<string>)
      ensures forall f :: f in changed <==>
                (f in after && f !in before) || (f in before && f !in after) ||
                (f in before && f in after && before[f] != after[f])
      ensures forall i, j :: 0 <= i < j < |changed| ==> changed[i] != changed[j]
    {
      changed := [];
      var todo := after.Keys;
      while todo != {}
        invariant todo <= after.Keys
        invariant forall f :: f in changed <==> f in after && f !in todo && (f !in before || before[f] != after[f])
        invariant forall i, j :: 0 <= i < j < |changed| ==> changed[i] != changed[j]
      {
        var file :| file in todo;
        todo := todo - {file};
        if file !in before || before[file] != after[file] {
          changed := changed + [file];
        }
      }
      todo := before.Keys;
      while todo != {}
        invariant todo <= before.Keys
        invariant forall f :: f in changed <==>
                    (f in after && (f !in before || before[f] != after[f])) || (f in before && f !in todo && f !in after)
        invariant forall i, j :: 0 <= i < j < |changed| ==> changed[i] != changed[j]
      {
        var file :| file in todo;
        todo := todo - {file};
        if file !in after {
          changed := changed + [file];
        }
      }
    }

    method UploadChangedFiles(server: ResourceServer, files: seq<string>)
      modifies server
      ensures server.files == CopyAll(old(server.files), folder, files)
      ensures server.past == old(server.past) + Copies(old(server.files), folder, files)
    {
      var i := 0;
      while i < |files|
        invariant 0 <= i <= |files|
        invariant server.files == CopyAll(old(server.files), folder, files[..i])
        invariant server.past == old(server.past) + Copies(old(server.files), folder, files[..i])
      {
        if files[i] in folder {
          server.Upload(files[i], folder[files[i]]);
        }
        assert files[..i + 1][..i] == files[..i];
        i := i + 1;
      }
      assert files[..i] == files;
    }

    /** One run of the tool.  The client disk plays no part, so any will do in the specification. */
    method PublishChanges(hash: Hash, server: ResourceServer, today: string)
      modifies this, server
      ensures World(folder, server.files, map[]) ==
              Publish(hash, World(old(folder), old(server.files), map[]), today)
      ensures old(server.past) <= server.past
      ensures LoadManifest(old(folder)).Ok? && VERSION_JSON !in LoadManifest(old(folder)).value.md5 ==>
                AllMidPublish(old(server.files), server.files, server.past[|old(server.past)|..])
    {
      var loaded := LoadManifest(folder);
      if loaded.Failed? {
        return;
      }
      var md5 := loaded.value.md5;
      var newHashes := CalculateFolderHashes(hash);
      var changed := GetChangedFiles(md5, newHashes);
      NamesOf(changed, ChangedSet(md5, newHashes));
      if |changed| > 0 {
        var version := UpdateVersion(loaded.value.version, today);
        if version.Failed? {
          return;
        }
        var updated := UpdateMd5(md5, newHashes, changed);
        Release(hash, server, md5, VersionInfo(version.value, updated), changed);
      }
    }

    /** Sets or removes the entry of each changed file; that is enough to reach the new hashes. */
    method UpdateMd5(md5: Manifest, newHashes: Manifest, changed: seq<string>) returns (updated: Manifest)
      requires forall f :: f in changed <==> f in ChangedSet(md5, newHashes)
      ensures updated == newHashes
    {
      updated := md5;
      var i := 0;
      while i < |changed|
        invariant 0 <= i <= |changed|
        invariant Patch(updated, newHashes, changed[i..]) == Patch(md5, newHashes, changed)
      {
        updated := PatchOne(updated, newHashes, changed[i]);
        assert changed[i..][1..] == changed[i + 1..];
        i := i + 1;
      }
      PatchReachesNewHashes(md5, newHashes, changed);
    }

    /** Writes `version.json` to the folder, then uploads the changed files and `version.json` after them. */
    method Release(hash: Hash, server: ResourceServer, ghost before: Manifest, info: VersionInfo, changed: seq<string>)
      requires info.md5 == Hashes(hash, folder) && forall f :: f in changed <==> f in ChangedSet(before, info.md5)
      modifies this, server
      ensures folder == WithManifest(old(folder), info)
      ensures server.files == old(server.files) +
                map f | f in folder && (f in ChangedSet(before, info.md5) || f == VERSION_JSON) :: folder[f]
      ensures old(server.past) <= server.past
      ensures VERSION_JSON !in before ==>
                AllMidPublish(old(server.files), server.files, server.past[|old(server.past)|..])
    {
      folder := WithManifest(folder, info);
      UploadChangedFiles(server, changed + [VERSION_JSON]);
      assert server.past[|old(server.past)|..] == Copies(old(server.files), folder, changed + [VERSION_JSON]);
      if VERSION_JSON !in before {
        AllUploadsAreMidPublish(old(server.files), folder, changed);
      }
      ghost var changedSet := ChangedSet(before, info.md5);
      CopyAllIsUnion(old(server.files), folder, changed + [VERSION_JSON], changedSet + {VERSION_JSON});
      assert (map f | f in folder && f in changedSet + {VERSION_JSON} :: folder[f]) ==
             (map f | f in folder && (f in changedSet || f == VERSION_JSON) :: folder[f]);
    }
  }

  ghost predicate AllMidPublish(before: Store, after: Store, seen: seq<Store>) {
    forall k :: 0 <= k < |seen| ==> MidPublish(before, after, seen[k])
  }

  lemma AllUploadsAreMidPublish(server: Store, source: Store, changed: seq<string>)
    requires VERSION_JSON !in changed
    ensures var files := changed + [VERSION_JSON];
            AllMidPublish(server, CopyAll(server, source, files), Copies(server, source, files))
  {
    var files := changed + [VERSION_JSON];
    forall k | 0 <= k < |Copies(server, source, files)|
      ensures MidPublish(server, CopyAll(server, source, files), Copies(server, source, files)[k])
    {
      var i := CopiesArePrefixes(server, source, files, k);
      UploadsAreMidPublish(server, source, changed, i);
    }
  }

  lemma NamesOf(files: seq<string>, names: set<string>)
    requires forall f :: f in files <==> f in names
    ensures |files| > 0 <==> names != {}
  {
    if |files| > 0 {
      assert files[0] in names;
    }
  }

  lemma {:induction false} CountNames(files: seq<string>, names: set<string>)
    requires forall f :: f in files <==> f in names
    requires forall i, j :: 0 <= i < j < |files| ==> files[i] != files[j]
    ensures |names| == |files|
  {
    if files != [] {
      var last, before := files[|files| - 1], files[..|files| - 1];
      assert forall f :: f in files <==> f == last || f in before;
      CountNames(before, names - {last});
    } else {
      assert names == {};
    }
  }

  datatype LaunchResult = LoadedCurrent | LoadedAfterSync | QuitOnBadManifest

  class Launcher {
    var disk: Store
    var currentVersion: string
    var downloadQueue: seq<string>
    var needDownloadFileCount: nat
    var progress: seq<nat>
    /** What the disk has held after each deletion and download. */
    ghost var past: seq<Store>

    constructor (disk: Store)
      ensures this.disk == disk && currentVersion == NO_LOCAL_VERSION
    {
      this.disk := disk;
      currentVersion := NO_LOCAL_VERSION;
      downloadQueue, needDownloadFileCount, progress, past := [], 0, [], [];
    }

    /** The version decision.  `currentVersion` starts at "0.0" in every process. */
    method CheckForUpdates(hash: Hash, server: ResourceServer) returns (result: LaunchResult)
      requires currentVersion == NO_LOCAL_VERSION
      modifies this
      ensures World(map[], server.files, disk) == Launch(hash, World(map[], server.files, old(disk)))
      ensures currentVersion == if VERSION_JSON in old(disk) && old(disk)[VERSION_JSON].Json?
                                  then old(disk)[VERSION_JSON].info.version else "0.0"
      ensures result == QuitOnBadManifest <==> VERSION_JSON in server.files && server.files[VERSION_JSON].Raw?
      ensures result == LoadedCurrent <==>
                if VERSION_JSON in server.files then
                  server.files[VERSION_JSON].Json? && server.files[VERSION_JSON].info.version == currentVersion
                else currentVersion == ""
      ensures result != LoadedAfterSync ==> disk == old(disk)
      ensures result == LoadedCurrent ==> past == old(past)
      ensures result == LoadedAfterSync ==>
                && LatestManifest(server.files).Ok? && old(past) <= past
                && SyncSteps(hash, old(disk), server.files, LatestManifest(server.files).value.md5, disk, past[|old(past)|..])
      ensures result == LoadedAfterSync && Ordinary(old(disk), LatestManifest(server.files).value.md5) ==>
                KillsAreEvents(hash, World(map[], server.files, old(disk)), disk, past[|old(past)|..])
    {
      if VERSION_JSON in disk && disk[VERSION_JSON].Json? {
        currentVersion := disk[VERSION_JSON].info.version;
      }
      var latest := LatestManifest(server.files);
      if latest.Failed? {
        return QuitOnBadManifest;
      }
      if latest.value.version != currentVersion {
        ghost var w := World(map[], server.files, disk);
        DownloadPlugin(hash, server, latest.value.md5);
        if Ordinary(w.disk, latest.value.md5) {
          StepsAreKills(hash, w, disk, past[|old(past)|..]);
        }
        return LoadedAfterSync;
      }
      return LoadedCurrent;
    }

    method DownloadPlugin(hash: Hash, server: ResourceServer, md5: Manifest)
      modifies this
      ensures disk == Sync(hash, old(disk), server.files, md5)
      ensures downloadQueue == [] && currentVersion == old(currentVersion)
      ensures var n := |QueueSet(hash, old(disk) - Withdrawn(old(disk), md5), md5)|;
              if n == 0 then needDownloadFileCount == old(needDownloadFileCount) && progress == old(progress)
              else needDownloadFileCount == n + 1 && progress == old(progress) + ProgressOf(n + 1, n + 1)
      ensures old(past) <= past && SyncSteps(hash, old(disk), server.files, md5, disk, past[|old(past)|..])
    {
      var localFileNames := LocalFiles(disk);
      DeleteWithdrawn(hash, server, localFileNames, md5);
      FillQueue(hash, md5);
      NamesOf(downloadQueue, QueueSet(hash, disk, md5));
      CountNames(downloadQueue, QueueSet(hash, disk, md5));
      if downloadQueue != [] {
        ghost var deleted := past[|old(past)|..];
        label Fetch:
        FetchQueue(hash, server, md5, old(disk));
        StepsJoin(hash, old(disk), server.files, md5, disk, deleted, past[|old@Fetch(past)|..]);
        assert past[|old(past)|..] == deleted + past[|old@Fetch(past)|..];
      }
    }

    /** Downloads what is queued, and `version.json` after it. */
    method FetchQueue(hash: Hash, server: ResourceServer, md5: Manifest, ghost before: Store)
      requires disk == before - Withdrawn(before, md5) && QueueSet(hash, disk, md5) != {}
      requires forall f :: f in downloadQueue <==> f in QueueSet(hash, disk, md5)
      modifies this
      ensures disk == Sync(hash, before, server.files, md5) && downloadQueue == []
      ensures currentVersion == old(currentVersion) && needDownloadFileCount == |old(downloadQueue)| + 1
      ensures progress == old(progress) + ProgressOf(needDownloadFileCount, needDownloadFileCount)
      ensures old(past) <= past && SyncSteps(hash, before, server.files, md5, disk, past[|old(past)|..])
    {
      ghost var queued, toFetch := QueueSet(hash, disk, md5), downloadQueue;
      downloadQueue := downloadQueue + [VERSION_JSON];
      needDownloadFileCount := |downloadQueue|;
      DownloadNextFile(server);
      DownloadsAreSteps(hash, before, server.files, md5, toFetch, disk);
      assert past[|old(past)|..] == Copies(old(disk), server.files, toFetch + [VERSION_JSON]);
      CopyAllIsUnion(old(disk), server.files, toFetch + [VERSION_JSON], queued + {VERSION_JSON});
      assert (map f | f in server.files && f in queued + {VERSION_JSON} :: server.files[f]) ==
             (map f | f in server.files && (f in queued || f == VERSION_JSON) :: server.files[f]);
    }

    /** Deletes each local file that the old manifest lists and the new one does not. */
    method DeleteWithdrawn(ghost hash: Hash, ghost server: ResourceServer, localFileNames: set<string>, md5: Manifest)
      requires localFileNames == LocalFiles(disk)
      modifies this`disk, this`past
      ensures disk == old(disk) - Withdrawn(old(disk), md5)
      ensures old(past) <= past
      ensures AllPartial(hash, old(disk), server.files, md5, past[|old(past)|..])
    {
      var todo := disk.Keys;
      while todo != {}
        invariant todo <= old(disk).Keys
        invariant disk == old(disk) - (Withdrawn(old(disk), md5) - todo)
        invariant old(past) <= past
        invariant AllPartial(hash, old(disk), server.files, md5, past[|old(past)|..])
      {
        var file :| file in todo;
        todo := todo - {file};
        if file in localFileNames && file !in md5 {
          disk := disk - {file};
          ghost var seen := past[|old(past)|..];
          past := past + [disk];
          if Ordinary(old(disk), md5) {
            PartlyDeleted(hash, old(disk), server.files, md5, Withdrawn(old(disk), md5) - todo);
          }
          assert disk == old(disk) - (Withdrawn(old(disk), md5) - todo);
          assert past[|old(past)|..] == seen + [disk];
        }
      }
    }

    /** Queues each listed file that is missing or whose MD5 differs, once. */
    method FillQueue(hash: Hash, md5: Manifest)
      modifies this`downloadQueue
      ensures forall f :: f in downloadQueue <==> f in md5 && (f in disk ==> hash(disk[f]) != md5[f])
      ensures forall i, j :: 0 <= i < j < |downloadQueue| ==> downloadQueue[i] != downloadQueue[j]
    {
      downloadQueue := [];
      var todo := md5.Keys;
      while todo != {}
        invariant todo <= md5.Keys
        invariant forall f :: f in downloadQueue <==> f in QueueSet(hash, disk, md5) && f !in todo
        invariant forall i, j :: 0 <= i < j < |downloadQueue| ==> downloadQueue[i] != downloadQueue[j]
      {
        var file :| file in todo;
        todo := todo - {file};
        if NeedsDownload(hash, disk, md5, file) {
          downloadQueue := downloadQueue + [file];
        }
      }
    }

    /** Takes the next file off the queue, stores what the server answers, and goes on to the next. */
    method DownloadNextFile(server: ResourceServer)
      requires |downloadQueue| <= needDownloadFileCount
      modifies this`disk, this`downloadQueue, this`progress, this`past
      ensures disk == CopyAll(old(disk), server.files, old(downloadQueue))
      ensures downloadQueue == []
      ensures past == old(past) + Copies(old(disk), server.files, old(downloadQueue))
      ensures progress == old(progress) + ProgressOf(needDownloadFileCount, |old(downloadQueue)|)
      decreases |downloadQueue|
    {
      if downloadQueue == [] {
        return;
      }
      var file := downloadQueue[0];
      downloadQueue := downloadQueue[1..];
      progress := progress + [Percent(needDownloadFileCount - |downloadQueue| - 1, needDownloadFileCount)];
      CopyFirst(disk, server.files, old(downloadQueue));
      var reply := server.Download(file);
      if reply.Some? {
        disk := disk[file := reply.value];
        past := past + [disk];
      }
      DownloadNextFile(server);
    }
  }

  /** Neither manifest lists `version.json` itself; the publisher never writes one that does. */
  predicate Ordinary(disk: Store, md5: Manifest) {
    VERSION_JSON !in LocalFiles(disk) && VERSION_JSON !in md5
  }

  /** Every disk on the way is a partly synced one, whose `version.json` is still the old one, or the final one. */
  ghost predicate SyncSteps(hash: Hash, disk: Store, server: Store, md5: Manifest, final: Store, seen: seq<Store>) {
    Ordinary(disk, md5) ==> forall k :: 0 <= k < |seen| ==> seen[k] == final || Partial(hash, disk, server, md5, seen[k])
  }

  /** Killing the launcher with any of these disks, but the final one, is an event that the histories allow for. */
  ghost predicate KillsAreEvents(hash: Hash, w: World, final: Store, seen: seq<Store>) {
    forall k :: 0 <= k < |seen| ==> seen[k] == final || Possible(hash, w, KillClient(seen[k]))
  }

  lemma StepsAreKills(hash: Hash, w: World, final: Store, seen: seq<Store>)
    requires LatestManifest(w.server).Ok? && !Skips(w)
    requires var md5 := LatestManifest(w.server).value.md5;
             Ordinary(w.disk, md5) && SyncSteps(hash, w.disk, w.server, md5, final, seen)
    ensures KillsAreEvents(hash, w, final, seen)
  {
    var md5 := LatestManifest(w.server).value.md5;
    forall k | 0 <= k < |seen| && seen[k] != final ensures Possible(hash, w, KillClient(seen[k])) {
      PartialIsKilled(hash, w.disk, w.server, md5, seen[k]);
    }
  }

  ghost predicate AllPartial(hash: Hash, disk: Store, server: Store, md5: Manifest, seen: seq<Store>) {
    Ordinary(disk, md5) ==> forall k :: 0 <= k < |seen| ==> Partial(hash, disk, server, md5, seen[k])
  }

  lemma StepsJoin(hash: Hash, disk: Store, server: Store, md5: Manifest, final: Store, xs: seq<Store>, ys: seq<Store>)
    requires AllPartial(hash, disk, server, md5, xs) && SyncSteps(hash, disk, server, md5, final, ys)
    ensures SyncSteps(hash, disk, server, md5, final, xs + ys)
  {
  }

  lemma DownloadsAreSteps(hash: Hash, disk: Store, server: Store, md5: Manifest, queue: seq<string>, final: Store)
    requires forall f :: f in queue <==> f in QueueSet(hash, disk - Withdrawn(disk, md5), md5)
    requires final == CopyAll(disk - Withdrawn(disk, md5), server, queue + [VERSION_JSON])
    ensures SyncSteps(hash, disk, server, md5, final, Copies(disk - Withdrawn(disk, md5), server, queue + [VERSION_JSON]))
  {
    var files, kept := queue + [VERSION_JSON], disk - Withdrawn(disk, md5);
    if Ordinary(disk, md5) {
      forall k | 0 <= k < |Copies(kept, server, files)|
        ensures Copies(kept, server, files)[k] == final || Partial(hash, disk, server, md5, Copies(kept, server, files)[k])
      {
        var i := CopiesArePrefixes(kept, server, files, k);
        if i <= |queue| {
          assert files[..i] == queue[..i];
          PartlyDownloaded(hash, disk, server, md5, queue[..i]);
        } else {
          assert files[..i] == files;
        }
      }
    }
  }

  /** `(int)(done * 100.0) / total` */
  function Percent(done: nat, total: nat): nat
    requires total > 0
  {
    done * 100 / total
  }

  /** The percentages reported while `remaining` of `total` files are still to come. */
  function ProgressOf(total: nat, remaining: nat): seq<nat>
    requires remaining <= total
  {
    if remaining == 0 then [] else [Percent(total - remaining, total)] + ProgressOf(total, remaining - 1)
  }

  lemma {:induction false} ProgressEntries(total: nat, remaining: nat)
    requires remaining <= total
    ensures |ProgressOf(total, remaining)| == remaining
    ensures forall i :: 0 <= i < remaining ==> ProgressOf(total, remaining)[i] == Percent(total - remaining + i, total)
  {
    if remaining > 0 {
      ProgressEntries(total, remaining - 1);
      var rest := ProgressOf(total, remaining - 1);
      assert forall i :: 1 <= i < remaining ==> ProgressOf(total, remaining)[i] == rest[i - 1];
    }
  }

  /** Reported progress starts at zero for a full queue, never falls and stays below one hundred. */
  lemma ProgressRises(total: nat, remaining: nat)
    requires remaining <= total
    ensures var p := ProgressOf(total, remaining);
            && |p| == remaining
            && (remaining == total > 0 ==> p[0] == 0)
            && (forall i :: 0 <= i < |p| ==>
                  p[i] < 100 && p[i] * total <= 100 * (total - remaining + i) < (p[i] + 1) * total)
            && (forall i, j :: 0 <= i <= j < |p| ==> p[i] <= p[j])
  {
    ProgressEntries(total, remaining);
    var p := ProgressOf(total, remaining);
    forall i | 0 <= i < |p|
      ensures p[i] < 100 && (total == remaining && i == 0 ==> p[i] == 0)
      ensures p[i] * total <= 100 * (total - remaining + i) < (p[i] + 1) * total
    {
      PercentBelow(total - remaining + i, total);
      PercentIsRounded(total - remaining + i, total);
    }
    forall i, j | 0 <= i <= j < |p| ensures p[i] <= p[j] {
      PercentIsMonotone(total - remaining + i, total - remaining + j, total);
    }
  }

  lemma PercentBelow(done: nat, total: nat)
    requires done < total
    ensures Percent(done, total) < 100 && (done == 0 ==> Percent(done, total) == 0)
  {
    DivideBelow(done * 100, 100, total);
  }

  lemma PercentIsRounded(done: nat, total: nat)
    requires total > 0
    ensures Percent(done, total) * total <= 100 * done < (Percent(done, total) + 1) * total
  {
    var p := Percent(done, total);
    assert done * 100 == p * total + done * 100 % total;
    assert (p + 1) * total == p * total + total;
  }

  lemma DivideBelow(a: nat, bound: nat, d: nat)
    requires d > 0 && a < bound * d
    ensures a / d < bound
  {
    if a / d >= bound {
      ProductMonotone(bound, a / d, d);
    }
  }

  lemma PercentIsMonotone(i: nat, j: nat, total: nat)
    requires i <= j && total > 0
    ensures Percent(i, total) <= Percent(j, total)
  {
    DivisionIsMonotone(i * 100, j * 100, total);
  }

  lemma DivisionIsMonotone(a: nat, b: nat, d: nat)
    requires a <= b && d > 0
    ensures a / d <= b / d
  {
    var q, r := a / d, b / d;
    if q > r {
      ProductMonotone(r + 1, q, d);
    }
  }
}
