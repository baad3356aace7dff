# Lampyris Crypto Lite: verified model

A Dafny model of the parts of Lampyris Crypto Lite that carry protocols or state
machines, with proofs of what they guarantee. `dafny verify dfyconfig.toml` checks
everything.

## What is modelled

**Resource updates.** The publisher (`Lampyris.ResourceVersionControlTool`) hashes a
folder, works out what changed, picks the next version, rewrites `version.json` and
uploads the changed files with `version.json` last. The resource server keeps one
directory of named files. The launcher compares versions, deletes what the new manifest
dropped, downloads what differs with `version.json` last, and loads. Three maps from file
name to content stand for the publisher's folder, the server and the client's disk; MD5 is
any function. `Version` and `ResourceUpdate` hold the operations, `ResourceHistory` runs of
the whole system, `ResourceLimits` the runs where its guarantees end, `ResourceObjects` the
three programs working in place. The main result is that a launcher that finds its version
equal to the server's and skips downloading really holds every published file, after any
history of edits, publishes, launches and launches killed half way, although a delete-only
update never refreshes the local `version.json`. It needs no version to be given out twice.
`Version.VersionFree` is the exact guard for that, and a clock that never goes back keeps it.

**Protobuf messages.** `Wire` is the wire format of "Protocol Buffers Encoding" (sections
"Base 128 Varints", "Message Structure" and "Last One Wins"); `Messages` is what every
generated class does with it. A message type is a `Codec`, and `Lawful` collects what has
to be shown of one message; from it follow the round trip, the size law, concatenation as
merging and the invisibility of unknown fields. The strategy messages, the application
messages and the request and response envelopes are lawful codecs, and the generated
classes (`MakeProfitObject`, `AboveObject`, `StrategyObject`, `AppObjects`,
`EnvelopeObject`), with their presence bits, case tags, tag constants and loops, are proved
equal to them. `MessageBytes` spells out the bytes they write, and `MessageReading` what they
make of the bytes of each field, whoever wrote them.

**Scheduler.** `Scheduler` says what one `Update` does to all tasks, shows that each task
lives as if it were alone, and derives exact firing laws for the three kinds of task.
`SchedulerObject` is the class, with its loop over the table and its deferred removals.

**INI files, component registry, ring buffer, bidirectional dictionary, object pool.** Each
is proved against a simpler description of itself. The object pool is a step machine in
which threads interleave, plus the class for calls that are not interrupted.

## Assumptions

- Uploads, downloads and deletions succeed, files do not change between hashing and
  upload, and no publish overlaps a client launch. The code logs such failures and goes on,
  so it promises nothing about them. A client may be killed at any point of a sync, even in
  the middle of writing a file: that file may then hold anything, and a torn `version.json`
  does not parse. A file the server stores is written whole.
- That the server's manifest is complete needs no assumption about the clock or the versions.
- File names are flat. The publisher never lists `version.json` itself
  (`Lampyris.ResourceVersionControlTool/Sources/Program.cs:135`).
- Doubles are 64-bit patterns and strings are sequences of bytes or characters.
- Scheduler times are integers, and actions are entries in a log.

## Where the code does not do what one would expect

- The generated writers skip a plain `double` for which `!= 0D` is false, so -0.0 is not
  written. The strategy laws state the exact condition under which nothing is lost.
- `UpdateVersion` adds one in `int`; after number 2147483647 the next version of that day
  is an earlier one. `Version.NextVersionIsLater` has the exact guard.
- A clock set back to a day on which no version was given out does no harm. A day that is
  left and comes back starts again at number 1, and so does a day after its last number, 0;
  a client that has the old manifest of that name then skips although its files are old
  (`ResourceLimits.ClockRollbackBreaksSkipping`, and in general `ReissueBreaksSkipping`).
- A file fetched by a launch that was killed before `version.json` is in no local manifest;
  if it is withdrawn afterwards, no launch removes it (`ResourceLimits.KilledDownloadStays`).
- A launch while a publish is uploading can fetch a file that is newer than the manifest it
  was served, and the next launch skips; a launch after the publish repairs it
  (`ResourceLimits.LaunchDuringPublish`).
- `RepeatTime` is decremented before it is tested. -1 never stops; 0 and every other negative
  count fire once, except that `int.MinValue` wraps and fires 2^31 times (`Scheduler.Firings`).
- Sections, names, values and descriptions are written to the INI file as they are, and read
  back trimmed. A value with blanks at an end or a line break never comes back, and neither
  does one under a section or name that a line cannot give back (`Ini.LookupIsReadable`,
  `Ini.PaddedValueIsLost`, `Ini.LineBreakIsLost`); a line break in a description can put an
  entry before the saved one (`Ini.DescriptionInjects`).
- `ObjectPool.Return` does not check what it is given: an object returned twice is handed out
  twice (`ObjectPool.DoubleReturnSharesObject`). The capacity bound holds all the same.
- `IniConfigManager.Save` writes the attribute's name as it is, while `Load` falls back to
  the member's name when the attribute has none (lines 50 and 98), so such a member is not
  restored. Among members that read as one entry each, `Ini.MemberComesBack` says exactly
  when a further one comes back.
- A comment in `Components.cs` promises lookup of an abstract type by component name, but
  line 82 looks for the concrete type in a table whose keys are abstract (line 60), so no
  named entry is ever stored and such a lookup always fails.

## Model

| member | source | states |
|---|---|---|
| ResourceHistory.SkippingIsSafe | Lampyris.Client.Launcher/sources/LauncherManager.cpp:166-173 | After any history from a fresh start in which no publish breaks the version guard, if the versions are equal then every file of the server's manifest is on the disk with its hash |
| ResourceHistory.ForwardClockIsLegal | Lampyris.ResourceVersionControlTool/Sources/Program.cs:203-215 | A clock that never goes back, on days that do not run out of numbers, keeps the guard |
| ResourceHistory.VersionNamesOneManifest | Lampyris.ResourceVersionControlTool/Sources/Program.cs:199-223 | While the guard is kept, one version string never names two published manifests |
| ResourceHistory.LaunchInstallsExactly | Lampyris.Client.Launcher/sources/LauncherManager.cpp:166-277 | After such a history a launch, skipped or not, leaves every published file on the disk, and of all other names but `version.json` exactly those that were there and not in the local manifest |
| ResourceHistory.FolderReachesDisk | Lampyris.ResourceVersionControlTool/Sources/Program.cs:24-92 | After any such history, when a publish within the guard is followed by a launch, every file of the folder is on the disk with its hash, and what else is there was on the disk before without the local manifest listing it |
| ResourceHistory.UnlistedNeverGrows | Lampyris.Client.Launcher/sources/LauncherManager.cpp:221-232 | From any moment on, whatever the clock says, without killed launches no name on the disk becomes unlisted: what a manifest has accounted for is deleted when it is withdrawn |
| ResourceLimits.KilledDownloadStays | Lampyris.Client.Launcher/sources/LauncherManager.cpp:204-232 | A run from a fresh start in which a file fetched by a killed launch survives its withdrawal |
| ResourceHistory.ServerAlwaysComplete | Lampyris.ResourceVersionControlTool/Sources/Program.cs:52-78 | After any events whatever from a fresh start each entry of the server's manifest has a stored file with that hash |
| ResourceHistory.VersionsNeverRepeat | Lampyris.ResourceVersionControlTool/Sources/Program.cs:199-223 | With a clock that never goes back, between any two moments the manifest is the same or its version is strictly later |
| ResourceLimits.ClockRollbackBreaksSkipping | Lampyris.Client.Launcher/sources/LauncherManager.cpp:166-173 | A run from a fresh start, with the clock set back once, in which the launcher skips and does not hold the published file |
| ResourceLimits.ReissueBreaksSkipping | Lampyris.Client.Launcher/sources/LauncherManager.cpp:166-173 | Whenever a publish breaks the guard there was a moment at which a client without files could have launched; it now skips, and holds the published files exactly when its old manifest lists each of them with the same hash |
| ResourceLimits.LaunchDuringPublish | Lampyris.ResourceVersionControlTool/Sources/Program.cs:232-258 | A launch in the middle of a publish ends without the files of the manifest it was served and the next one skips; after the publish a launch installs everything |
| ResourceHistory.StepKeepsInv | Lampyris.ResourceVersionControlTool/Sources/Program.cs:24-92 | Every edit, publish within the guard, launch and killed launch keeps the server complete, the versions distinct and the client consistent |
| ResourceHistory.PublishIssues | Lampyris.ResourceVersionControlTool/Sources/Program.cs:52-78 | The version a publish gives out is new exactly when the guard holds |
| ResourceHistory.KillKeepsInv | Lampyris.Client.Launcher/sources/LauncherManager.cpp:267-328 | A sync cut short anywhere, also inside a file, leaves a disk whose version is the old one or unreadable, so the next launch skips only if this one did |
| ResourceHistory.PublishKeepsServerComplete | Lampyris.ResourceVersionControlTool/Sources/Program.cs:52-78 | A publish changes nothing, or installs the folder's hashes under the next version together with every file |
| ResourceUpdate.SyncInstalls | Lampyris.Client.Launcher/sources/LauncherManager.cpp:186-277 | From any disk one sync brings every listed file, leaves those that were right and the files named in neither manifest alone, removes files only the old manifest listed, takes the new `version.json` exactly when something was missing or different, and a second sync queues nothing |
| ResourceUpdate.PatchReachesNewHashes | Lampyris.ResourceVersionControlTool/Sources/Program.cs:60-70 | Setting or removing the entry of each changed file, in any order, turns the old manifest into the new hash map |
| ResourceUpdate.NoChangeMeansEqual | Lampyris.ResourceVersionControlTool/Sources/Program.cs:168-196 | The change list is empty exactly when the two maps are equal, and names exactly the files whose entries differ |
| ResourceUpdate.UploadsCoverManifest | Lampyris.ResourceVersionControlTool/Sources/Program.cs:52-77 | Files unchanged in this publish are covered by earlier uploads and the others by this one |
| ResourceUpdate.NewManifestComesLast | Lampyris.ResourceVersionControlTool/Sources/Program.cs:232-258 | After any number of the uploads the server serves the old `version.json`, or the new one together with every file it lists |
| ResourceUpdate.CopyAllIsUnion | Lampyris.ResourceVersionControlTool/Sources/Program.cs:232-258 | Uploading one file after the other, in any order, amounts to one map union; files missing from the folder are skipped |
| ResourceUpdate.CopyFirst | Lampyris.Client.Launcher/sources/LauncherManager.cpp:279-328 | Taking files off the front of the queue goes through the same stores, one by one, as copying the whole list |
| ResourceUpdate.PartlyDownloaded | Lampyris.Client.Launcher/sources/LauncherManager.cpp:267-272 | Every disk before the last download still has the old `version.json`, the deletions done and some listed files fetched |
| ResourceUpdate.SyncLeavesUnlisted | Lampyris.Client.Launcher/sources/LauncherManager.cpp:194-275 | Exactly what a sync leaves beside the published files, and which names no manifest accounts for afterwards |
| ResourceUpdate.SyncSucceedsExactly | Lampyris.Client.Launcher/sources/LauncherManager.cpp:234-328 | A sync against a store in the middle of a publish succeeds exactly when every file it has to fetch is still the one listed |
| ResourceUpdate.UploadsAreMidPublish | Lampyris.ResourceVersionControlTool/Sources/Program.cs:232-258 | After any number of uploads no file is missing, each is the old or the new one, and the new `version.json` is there only when everything else is |
| ResourceObjects.ResourceServer.Upload | Lampyris.ResourceServer/Program.cs:96-133 | Overwrites one stored file and leaves the others |
| ResourceUpdate.CopiedEntries | Lampyris.ResourceServer/Program.cs:69-133 | After any uploads each name answers the content uploaded under it, and the other names what they answered before |
| ResourceObjects.Publisher.CalculateFolderHashes | Lampyris.ResourceVersionControlTool/Sources/Program.cs:127-147 | The hash of every file but `version.json` |
| ResourceObjects.Publisher.GetChangedFiles | Lampyris.ResourceVersionControlTool/Sources/Program.cs:168-196 | Lists exactly the added, modified and deleted files, each once |
| ResourceObjects.Publisher.UploadChangedFiles | Lampyris.ResourceVersionControlTool/Sources/Program.cs:226-266 | The server ends with the files copied in list order and passed through each intermediate store on the way |
| ResourceObjects.Publisher.Release | Lampyris.ResourceVersionControlTool/Sources/Program.cs:72-77 | Rewrites `version.json` in the folder and uploads it last: the new manifest appears only with all its files, and until then each file is the old or the new one |
| ResourceObjects.Publisher.PublishChanges | Lampyris.ResourceVersionControlTool/Sources/Program.cs:24-92 | The program does one `Publish` step, and the new manifest appears only with all its files |
| ResourceObjects.Launcher.CheckForUpdates | Lampyris.Client.Launcher/sources/LauncherManager.cpp:91-184 | The program does one `Launch` step: it quits exactly when the answer does not parse, loads directly exactly when the versions are equal, and otherwise syncs and loads, going only through partly synced disks, each of which is a killed launch that the histories allow for |
| ResourceObjects.Launcher.DownloadPlugin | Lampyris.Client.Launcher/sources/LauncherManager.cpp:186-277 | Ends with the synced disk and an empty queue; every disk on the way is the final one or still has the old `version.json`; the count and the reported percentages are those of the queued files and `version.json` |
| ResourceObjects.Launcher.DeleteWithdrawn | Lampyris.Client.Launcher/sources/LauncherManager.cpp:221-232 | Deletes exactly the files that the local manifest lists and the new one does not |
| ResourceObjects.Launcher.FillQueue | Lampyris.Client.Launcher/sources/LauncherManager.cpp:234-265 | Queues exactly the listed files that are missing or differ, each once |
| ResourceObjects.Launcher.DownloadNextFile | Lampyris.Client.Launcher/sources/LauncherManager.cpp:279-328 | Drains the queue in order, stores every answer, reports progress once a file |
| ResourceObjects.ProgressRises | Lampyris.Client.Launcher/sources/LauncherManager.cpp:303-308 | Reported percentages are the rounded-down share of the files done so far: they start at 0, never fall and stay below 100 |
| Version.NextVersionIsLater | Lampyris.ResourceVersionControlTool/Sources/Program.cs:199-223 | With a clock that has not gone back the new version is later exactly when the day has a number left, and earlier exactly when it has not |
| Version.PrintedIsRead | Lampyris.ResourceVersionControlTool/Sources/Program.cs:206-215 | The printed `date.n` is split and parsed back to the same date and number |
| Version.KeyDeterminesVersion | Lampyris.ResourceVersionControlTool/Sources/Program.cs:215 | Equal date and number mean equal version strings |
| Version.FreshVersionExactly | Lampyris.ResourceVersionControlTool/Sources/Program.cs:203-215 | The next version has not been given out before exactly when the guard holds, for any earlier clock and with `int` wrap-around; and then what is known of the versions stays so |
| Version.UpdateIsNextKey | Lampyris.ResourceVersionControlTool/Sources/Program.cs:199-223 | On strings: the next version is read back as the next date and number |
| Version.UpdateOnNewDay | Lampyris.ResourceVersionControlTool/Sources/Program.cs:199-206 | No version, or one of another day, however malformed, is followed by number 1 of today |
| Version.UpdateOnSameDay | Lampyris.ResourceVersionControlTool/Sources/Program.cs:206-215 | Today's version without a number or with one that does not parse is an exception; otherwise the number after the first dot goes up by one in `int`, and what follows a second dot is ignored |
| Text.DigitsAreDecimal | Lampyris.ResourceVersionControlTool/Sources/Program.cs:215 | The i-th digit from the right of a printed number is its i-th decimal digit, without leading zeros |
| Text.ParseUnsigned | Lampyris.ResourceVersionControlTool/Sources/Program.cs:212 | Without a sign exactly the non-empty strings of digits up to 2147483647 are numbers, with their decimal value |
| Text.ParseSigned | Lampyris.ResourceVersionControlTool/Sources/Program.cs:212 | With a sign exactly those within the range of `int` are, with their signed value |
| Version.ClockRollbackRepeatsVersion | Lampyris.ResourceVersionControlTool/Sources/Program.cs:203-215 | A clock that goes back and forth hands out one version twice |
| Wire.VarintRoundTrip | Lampyris-Crypto-Server-Lite/Sources/Protocol/Strategy.cs:318-346 | A varint is read back whatever follows it, within the byte limit its value needs |
| Wire.VarintSizeIsLength | Lampyris-Crypto-Server-Lite/Sources/Protocol/Strategy.cs:351-375 | The threshold table of the size computation gives the number of bytes, for all 64-bit values |
| Wire.VarintBytes | Lampyris-Crypto-Server-Lite/Sources/Protocol/Strategy.cs:318-346 | Byte i of a varint is bits 7i to 7i+6 of the number, with the continuation bit on every byte but the last |
| Wire.ReadVarintExactly | Lampyris-Crypto-Server-Lite/Sources/Protocol/Strategy.cs:452-489 | Which bytes read as a varint, and as which number: any groups of seven bits up to the first byte without continuation bit, redundant ones included |
| Wire.LittleEndianBytes | Lampyris-Crypto-Server-Lite/Sources/Protocol/Strategy.cs:319-322 | Byte i of a fixed-width word is its i-th byte from the least significant end |
| Wire.FieldRoundTrip | Lampyris-Crypto-Server-Lite/Sources/Protocol/Strategy.cs:452-489 | Any well-formed field is read back, and reading stops exactly at its end |
| Wire.FieldBytes | Lampyris-Crypto-Server-Lite/Sources/Protocol/Strategy.cs:318-346 | A field with a number up to 15 is one tag byte and its value in the form its wire type calls for |
| Wire.CutFieldIsRefused | Lampyris-Crypto-Server-Lite/Sources/Protocol/Strategy.cs:452-489 | A field that is cut off anywhere is refused |
| Wire.EndGroupStops | Lampyris-Crypto-Server-Lite/Sources/Protocol/Strategy.cs:410-413 | An end-group tag stops the reader, whatever follows |
| Wire.InvalidTagIsRefused | Lampyris-Crypto-Server-Lite/Sources/Protocol/Strategy.cs:410-416 | Field number 0, groups and wire types 6 and 7 are refused |
| Messages.ParseFields | Lampyris-Crypto-Server-Lite/Sources/Protocol/Strategy.cs:850-883 | The tag loop on any interleaving of known and unknown fields: known ones act as if the others were absent, unknown ones are kept in order |
| Messages.UnknownFieldIsInvisible | Lampyris-Crypto-Server-Lite/Sources/Protocol/Strategy.cs:858-860 | Inserting a well-formed unknown field anywhere changes no known field |
| Messages.RoundTrip | Lampyris-Crypto-Server-Lite/Sources/Protocol/Strategy.cs:737-883 | For every lawful message, parsing what it writes restores every field, up to negative zeros in plain doubles |
| Messages.SizeIsLength | Lampyris-Crypto-Server-Lite/Sources/Protocol/Strategy.cs:763-781 | For every lawful message `CalculateSize` is the number of bytes written |
| Messages.ParseMerges | Lampyris-Crypto-Server-Lite/Sources/Protocol/Strategy.cs:786-883 | For every lawful message, reading the bytes of `a` into `m` does what `m.MergeFrom(a)` does |
| Messages.ConcatenationMerges | Lampyris-Crypto-Server-Lite/Sources/Protocol/Strategy.cs:1160-1358 | Parsing two encodings in a row gives the merge, exactly when the merge survives the wire |
| Messages.ParseKeepsValid | Lampyris-Crypto-Server-Lite/Sources/Protocol/Strategy.cs:850-883 | Whatever bytes arrive, an accepted message is valid |
| Messages.NestedEndGroupIsRefused | Lampyris-Crypto-Server-Lite/Sources/Protocol/Strategy.cs:850-883 | A nested message whose bytes contain an end-group tag is refused |
| Messages.Canonicalises | Lampyris-Crypto-Server-Lite/Sources/Protocol/Strategy.cs:737-883 | Any accepted bytes, decoded and written again, decode to the same message |
| Slots.ReadArmMerges | Lampyris-Crypto-Server-Lite/Sources/Protocol/Strategy.cs:1243-1249 | Copying the current arm and reading into the copy agrees with creating a missing arm and merging into it |
| Writer.WriteDelimitedIf | Lampyris-Crypto-Server-Lite/Sources/Protocol/Strategy.cs:1161-1164 | Raw tag, length and data append exactly the encoding of that field, when it is present |
| MakeProfitMessage.MakeProfitLawful | Lampyris-Crypto-Server-Lite/Sources/Protocol/Strategy.cs:94-489 | The profit step obeys every law of a message |
| MakeProfitObject.StrategyAbovePercentageMakeProfitBean.MergeFrom | Lampyris-Crypto-Server-Lite/Sources/Protocol/Strategy.cs:379-404 | Merges in place as the message function does; null changes nothing |
| MakeProfitObject.StrategyAbovePercentageMakeProfitBean.WriteTo | Lampyris-Crypto-Server-Lite/Sources/Protocol/Strategy.cs:318-346 | The raw tag bytes and values appended are the message's encoding, which `MessageBytes.MakeProfitBytes` spells out |
| MakeProfitObject.StrategyAbovePercentageMakeProfitBean.CalculateSize | Lampyris-Crypto-Server-Lite/Sources/Protocol/Strategy.cs:351-375 | The accumulated size is the message's size |
| MakeProfitObject.StrategyAbovePercentageMakeProfitBean.InternalMergeFrom | Lampyris-Crypto-Server-Lite/Sources/Protocol/Strategy.cs:452-489 | The tag loop parses into the object exactly what `Parse` says |
| AboveMessage.NestedAppend | Lampyris-Crypto-Server-Lite/Sources/Protocol/Strategy.cs:850-883 | Reading the repeated nested messages back appends each of them |
| AboveMessage.AboveLawful | Lampyris-Crypto-Server-Lite/Sources/Protocol/Strategy.cs:495-886 | Presence bits, plain double and repeated nested messages obey every law, whatever lawful message is nested |
| AboveObject.StrategyAbovePercentageBean.SetStopLossPerc | Lampyris-Crypto-Server-Lite/Sources/Protocol/Strategy.cs:570-577 | Sets one optional field and its presence, and nothing else |
| AboveObject.StrategyAbovePercentageBean.ClearStopLossPerc | Lampyris-Crypto-Server-Lite/Sources/Protocol/Strategy.cs:586-588 | Clears one optional field and nothing else |
| AboveObject.StrategyAbovePercentageBean.MergeFrom | Lampyris-Crypto-Server-Lite/Sources/Protocol/Strategy.cs:786-804 | Merges in place as the message function does, presence bits included |
| AboveObject.StrategyAbovePercentageBean.WriteTo | Lampyris-Crypto-Server-Lite/Sources/Protocol/Strategy.cs:737-758 | The bytes appended are the message's encoding, which `MessageBytes.AboveBytes` spells out |
| AboveObject.StrategyAbovePercentageBean.CalculateSize | Lampyris-Crypto-Server-Lite/Sources/Protocol/Strategy.cs:763-781 | The accumulated size is the message's size |
| AboveObject.StrategyAbovePercentageBean.InternalMergeFrom | Lampyris-Crypto-Server-Lite/Sources/Protocol/Strategy.cs:850-883 | The tag loop parses into the object exactly what `Parse` says |
| StrategyMessage.StrategyLawful | Lampyris-Crypto-Server-Lite/Sources/Protocol/Strategy.cs:889-1360 | The strategy with its repeated strings and oneof obeys every law, whatever lawful message its arm holds |
| StrategyObject.StrategyBean.SetAboveBean | Lampyris-Crypto-Server-Lite/Sources/Protocol/Strategy.cs:1042-1048 | Sets payload and case together; null clears both |
| StrategyObject.StrategyBean.ClearImplementBean | Lampyris-Crypto-Server-Lite/Sources/Protocol/Strategy.cs:1065-1068 | Clears payload and case together |
| StrategyObject.StrategyBean.MergeFrom | Lampyris-Crypto-Server-Lite/Sources/Protocol/Strategy.cs:1223-1253 | Merges in place; same case merges, a missing arm is created; case and payload stay in agreement |
| StrategyObject.StrategyBean.WriteTo | Lampyris-Crypto-Server-Lite/Sources/Protocol/Strategy.cs:1160-1189 | The bytes appended are the message's encoding |
| StrategyObject.StrategyBean.CalculateSize | Lampyris-Crypto-Server-Lite/Sources/Protocol/Strategy.cs:1194-1219 | The accumulated size is the message's size |
| StrategyObject.StrategyBean.InternalMergeFrom | Lampyris-Crypto-Server-Lite/Sources/Protocol/Strategy.cs:1312-1358 | The tag loop parses into the object exactly what `Parse` says, and keeps case and payload in agreement |
| StrategyWire.StrategyBeanRoundTrip | Lampyris-Crypto-Server-Lite/Sources/Protocol/Strategy.cs:1160-1358 | A strategy with its nested messages comes back, presence included, exactly when no plain double in it is -0.0 |
| StrategyWire.StrategyBeanConcatenation | Lampyris-Crypto-Server-Lite/Sources/Protocol/Strategy.cs:1160-1358 | Two encodings in a row parse to `a.MergeFrom(b)` exactly when that merge holds no plain -0.0 |
| StrategyWire.StrategyBeansConcatenate | Lampyris-Crypto-Server-Lite/Sources/Protocol/Strategy.cs:1160-1358 | They do so whenever neither message holds a plain -0.0 |
| StrategyWire.StrategyBeanSize | Lampyris-Crypto-Server-Lite/Sources/Protocol/Strategy.cs:1194-1219 | `CalculateSize` is the number of bytes written |
| StrategyWire.NegativeZeroIsLost | Lampyris-Crypto-Server-Lite/Sources/Protocol/Strategy.cs:319-322 | A concrete message that the wire does not preserve |
| MessageBytes.MakeProfitBytes | Lampyris-Crypto-Server-Lite/Sources/Protocol/Strategy.cs:318-346 | The bytes of a profit step: raw tags 9, 17, 25, 32, 40 and 48, each before its value and only when that is not the default |
| MessageBytes.AboveBytes | Lampyris-Crypto-Server-Lite/Sources/Protocol/Strategy.cs:737-758 | The bytes of a percentage bean: raw tags 9, 17, 25 and 33, the optional ones when present, and 42 before each nested message |
| MessageBytes.StrategyBytes | Lampyris-Crypto-Server-Lite/Sources/Protocol/Strategy.cs:1160-1189 | The bytes of a strategy: raw tags 10, 16, 26 before each banned symbol, 32, 42, 48 and 58 |
| MessageReading.ParseTurns | Lampyris-Crypto-Server-Lite/Sources/Protocol/Strategy.cs:850-883 | Parsing is nothing but turns of the tag loop, up to the end, an end-group tag or an exception |
| MessageReading.MakeProfitDoublesAreRead | Lampyris-Crypto-Server-Lite/Sources/Protocol/Strategy.cs:452-489 | Tags 9, 17 and 25 set their double to the eight bytes that follow, zero included, and nothing else |
| MessageReading.MakeProfitNumbersAreRead | Lampyris-Crypto-Server-Lite/Sources/Protocol/Strategy.cs:452-489 | Tag 32 sets the flag to whether the varint is not 0; tags 40 and 48 set their number to its low 32 bits |
| MessageReading.AboveDoublesAreRead | Lampyris-Crypto-Server-Lite/Sources/Protocol/Strategy.cs:850-883 | Tags 9, 17, 25 and 33 set their double, the optional ones with their presence |
| MessageReading.StepIsRead | Lampyris-Crypto-Server-Lite/Sources/Protocol/Strategy.cs:850-883 | Tag 42 appends the nested message, or is an exception when its bytes do not parse to their end |
| MessageReading.StrategyNumbersAreRead | Lampyris-Crypto-Server-Lite/Sources/Protocol/Strategy.cs:1312-1358 | Tags 16, 32 and 48 set flag, identifier with presence, and status |
| MessageReading.StrategyStringsAreRead | Lampyris-Crypto-Server-Lite/Sources/Protocol/Strategy.cs:1312-1358 | Tags 10 and 42 set their string and tag 26 appends a banned symbol |
| MessageReading.BeanIsRead | Lampyris-Crypto-Server-Lite/Sources/Protocol/Strategy.cs:1312-1358 | Tag 58 reads its bytes into a copy of the current bean, if there is one, and stores it; or it is an exception |
| MessageReading.OtherStrategyFieldsAreKept | Lampyris-Crypto-Server-Lite/Sources/Protocol/Strategy.cs:452-460 | Any other number, or one of these with another wire type, is kept as an unknown field |
| AppMessages.HeartBeatLawful | Lampyris-Crypto-Server-Lite/Sources/Protocol/App.cs:54-292 | The heart beat request obeys every law of a message |
| AppMessages.LogQueryLawful | Lampyris-Crypto-Server-Lite/Sources/Protocol/App.cs:791-1055 | The log query with two optional numbers obeys every law |
| AppMessages.LogReplyLawful | Lampyris-Crypto-Server-Lite/Sources/Protocol/App.cs:1061-1319 | The log reply with its repeated strings obeys every law |
| AppObjects.ReqHeartBeat.InternalMergeFrom | Lampyris-Crypto-Server-Lite/Sources/Protocol/App.cs:268-289 | The tag loop parses into the object exactly what `Parse` says |
| AppObjects.ReqHeartBeat.WriteTo | Lampyris-Crypto-Server-Lite/Sources/Protocol/App.cs:190-202 | The bytes appended are the message's encoding |
| AppObjects.ReqHeartBeat.MergeFrom | Lampyris-Crypto-Server-Lite/Sources/Protocol/App.cs:223-234 | Merges in place as the message function does |
| AppObjects.ReqServerLogQuery.InternalMergeFrom | Lampyris-Crypto-Server-Lite/Sources/Protocol/App.cs:1031-1052 | The tag loop parses into the object exactly what `Parse` says, presence bits included |
| AppObjects.ReqServerLogQuery.WriteTo | Lampyris-Crypto-Server-Lite/Sources/Protocol/App.cs:953-965 | A present field is written even when it is zero |
| AppObjects.ReqServerLogQuery.MergeFrom | Lampyris-Crypto-Server-Lite/Sources/Protocol/App.cs:986-997 | Merges in place, presence bits included |
| AppObjects.ResServerLogQuery.InternalMergeFrom | Lampyris-Crypto-Server-Lite/Sources/Protocol/App.cs:1291-1316 | The tag loop parses into the object exactly what `Parse` says |
| AppObjects.ResServerLogQuery.WriteTo | Lampyris-Crypto-Server-Lite/Sources/Protocol/App.cs:1206-1219 | The bytes appended are the message's encoding |
| AppObjects.ResServerLogQuery.MergeFrom | Lampyris-Crypto-Server-Lite/Sources/Protocol/App.cs:1241-1253 | Merges in place; lists are joined |
| MessageBytes.HeartBeatBytes | Lampyris-Crypto-Server-Lite/Sources/Protocol/App.cs:190-202 | The bytes of a heart beat: raw tags 8 and 16 |
| MessageBytes.LogQueryBytes | Lampyris-Crypto-Server-Lite/Sources/Protocol/App.cs:953-965 | The bytes of a log query: raw tags 8 and 16 for what is present, zero included |
| MessageBytes.LogReplyBytes | Lampyris-Crypto-Server-Lite/Sources/Protocol/App.cs:1206-1219 | The bytes of a log reply: raw tags 8, 16 and 26 before each line |
| MessageReading.RequestsAreRead | Lampyris-Crypto-Server-Lite/Sources/Protocol/App.cs:268-289 | Tags 8 and 16 of a heart beat and of a log query set their field, with its presence, and nothing else |
| MessageReading.LogReplyIsRead | Lampyris-Crypto-Server-Lite/Sources/Protocol/App.cs:1291-1316 | Tags 8 and 16 set their number and tag 26 appends a line |
| MessageReading.OthersAreKept | Lampyris-Crypto-Server-Lite/Sources/Protocol/App.cs:268-289 | Any other field of these messages is kept as an unknown field |
| Envelope.EnvelopeLawful | Lampyris-Crypto-Server-Lite/Sources/Protocol/Common.cs:814-1686 | An envelope of lawful arms obeys every law of a message: round trip, size, concatenation, unknown fields |
| Envelope.LastArmWins | Lampyris-Crypto-Server-Lite/Sources/Protocol/Common.cs:1015-1179 | Two envelopes in a row parse to the second one's case; same case merges the payloads, a different case replaces |
| Envelope.ArmTagBytes | Lampyris-Crypto-Server-Lite/Sources/Protocol/Common.cs:814-920 | The raw tag of arm n is one byte up to 15 and two from 16 on, with the bytes the writers contain |
| EnvelopeObject.EnvelopeMessage.Set | Lampyris-Crypto-Server-Lite/Sources/Protocol/Common.cs:480-488 | After setting one arm its getter answers the value and every other getter null; setting null clears |
| EnvelopeObject.EnvelopeMessage.Clear | Lampyris-Crypto-Server-Lite/Sources/Protocol/Common.cs:602-605 | No case, and every getter answers null |
| EnvelopeObject.EnvelopeMessage.MergeFrom | Lampyris-Crypto-Server-Lite/Sources/Protocol/Common.cs:1015-1179 | Merges in place and keeps case and payload in agreement |
| EnvelopeObject.EnvelopeMessage.CalculateSize | Lampyris-Crypto-Server-Lite/Sources/Protocol/Common.cs:927-1011 | One or two tag bytes, length and payload, and unknown fields |
| EnvelopeObject.EnvelopeMessage.WriteTo | Lampyris-Crypto-Server-Lite/Sources/Protocol/Common.cs:814-922 | The raw tag bytes, length and payload appended are the message's encoding |
| EnvelopeObject.EnvelopeMessage.InternalMergeFrom | Lampyris-Crypto-Server-Lite/Sources/Protocol/Common.cs:1439-1686 | The tag loop parses into the object exactly what `Parse` says and keeps case and payload in agreement |
| Payloads.LiftLawful | Lampyris-Crypto-Server-Lite/Sources/Protocol/Common.cs:562-592 | A codec carried over to a common payload type keeps all its laws |
| Payloads.RequestLawful | Lampyris-Crypto-Server-Lite/Sources/Protocol/Common.cs:126-1686 | The request with the heart beat at 17 and the log query at 18, and any lawful messages at its other arms, obeys every law |
| Payloads.ResponseLawful | Lampyris-Crypto-Server-Lite/Sources/Protocol/Common.cs:1692-2830 | The response with the log reply at 12, and any lawful messages at its other arms, obeys every law |
| MessageBytes.EnvelopeBytes | Lampyris-Crypto-Server-Lite/Sources/Protocol/Common.cs:814-922 | The bytes of an envelope: the one or two tag bytes of its arm, length and payload, and unknown fields |
| MessageBytes.RequestBytes | Lampyris-Crypto-Server-Lite/Sources/Protocol/Common.cs:562-592 | A heart beat travels behind tag bytes 138, 1 and a log query behind 146, 1 |
| MessageBytes.ResponseBytes | Lampyris-Crypto-Server-Lite/Sources/Protocol/Common.cs:2204-2280 | A log reply travels behind tag byte 98 |
| MessageBytes.ArmsExactly | Lampyris-Crypto-Server-Lite/Sources/Protocol/Common.cs:1439-1686 | A request takes arms 1 to 26 and a response 1 to 18, and nothing else |
| MessageReading.ArmIsRead | Lampyris-Crypto-Server-Lite/Sources/Protocol/Common.cs:1439-1686 | The tag bytes of arm n make n the case, with the bytes read into a copy of what that arm held, if it was the case already |
| MessageReading.OtherArmsAreKept | Lampyris-Crypto-Server-Lite/Sources/Protocol/Common.cs:1446-1450 | Every other field is kept as an unknown field and leaves the case as it was |
| Scheduler.TaskLivesAlone | Lampyris.CSharp.Common/Sources/PlannedTaskScheduler.cs:144-195 | An uncleared task among any others lives the life it would live alone, whatever the order of the table |
| Scheduler.TaskFiresAlone | Lampyris.CSharp.Common/Sources/PlannedTaskScheduler.cs:144-189 | The updates that fire it are those that would fire it alone |
| Scheduler.IdsNeverReused | Lampyris.CSharp.Common/Sources/PlannedTaskScheduler.cs:43-58 | An id that was handed out and is gone never comes back |
| Scheduler.RepeatsCount | Lampyris.CSharp.Common/Sources/PlannedTaskScheduler.cs:181-187 | An interval or tick task is alive exactly until its last firing, and fires no more often than its count allows |
| Scheduler.TickFiresExactly | Lampyris.CSharp.Common/Sources/PlannedTaskScheduler.cs:158-166 | The k-th update fires a tick task exactly when max(1, d) divides k and it has firings left |
| Scheduler.TickAlive | Lampyris.CSharp.Common/Sources/PlannedTaskScheduler.cs:181-195 | It is removed in the update of its last firing |
| Scheduler.TickTaskInScheduler | Lampyris.CSharp.Common/Sources/PlannedTaskScheduler.cs:56-71 | Both laws for a task added to any scheduler, among any later operations that do not clear it |
| Scheduler.IntervalFiresExactly | Lampyris.CSharp.Common/Sources/PlannedTaskScheduler.cs:149-157 | A live interval task fires exactly when its delay has passed since its latest firing, even if the clock went back |
| Scheduler.IntervalSpacing | Lampyris.CSharp.Common/Sources/PlannedTaskScheduler.cs:140-157 | Consecutive firings are at least the delay apart, and every update between them came earlier than that |
| Scheduler.FiringsFollow | Lampyris.CSharp.Common/Sources/PlannedTaskScheduler.cs:144-189 | The updates that ran a task inside a scheduler are the firings of its life alone |
| Scheduler.IntervalTaskInScheduler | Lampyris.CSharp.Common/Sources/PlannedTaskScheduler.cs:39-54 | An interval task added to any scheduler, among any operations that do not clear it, is there while it has firings left and runs exactly when its delay has passed since it last ran |
| Scheduler.FirstExecutionIsNext | Lampyris.CSharp.Common/Sources/PlannedTaskScheduler.cs:102-110 | The first execution is the first instant with the target time of day at or after registration |
| Scheduler.NextExecutionKeepsTarget | Lampyris.CSharp.Common/Sources/PlannedTaskScheduler.cs:167-176 | The next execution always has the target time of day |
| Scheduler.DailyLife | Lampyris.CSharp.Common/Sources/PlannedTaskScheduler.cs:167-176 | A daily task is never removed; its next execution is the first one plus one day for each firing |
| Scheduler.DailyFiresExactly | Lampyris.CSharp.Common/Sources/PlannedTaskScheduler.cs:167-176 | An update fires it exactly when more target instants have been reached than it has fired |
| Scheduler.DailyNeverOverfires | Lampyris.CSharp.Common/Sources/PlannedTaskScheduler.cs:167-176 | Firings never exceed the target instants reached at any update |
| Scheduler.DailyFiresForEachInstant | Lampyris.CSharp.Common/Sources/PlannedTaskScheduler.cs:102-176 | With updates less than a day apart, registration being the first, there is one firing for each instant reached |
| Scheduler.DailyTaskInScheduler | Lampyris.CSharp.Common/Sources/PlannedTaskScheduler.cs:92-123 | A daily task added to any scheduler, among any operations that do not clear it, is always there, due as many days after its first instant as it has run, and an update runs it exactly when it is due |
| Scheduler.DailyInstants | Lampyris.CSharp.Common/Sources/PlannedTaskScheduler.cs:102-119 | Its first instant is within a day of registration, and every one is at the hour, minute and second asked for, to the tick |
| Scheduler.DailyTaskCountsInstants | Lampyris.CSharp.Common/Sources/PlannedTaskScheduler.cs:136-176 | It has never run for an instant that no update has reached; and when each update comes less than a day after the one before, registration being the first, it has run for every instant that one has reached |
| Scheduler.TimeOfDay | Lampyris.CSharp.Common/Sources/PlannedTaskScheduler.cs:92-102 | The target is a whole number of seconds into the day, at that hour, minute and second |
| Scheduler.LatestNowIsMax | Lampyris.CSharp.Common/Sources/PlannedTaskScheduler.cs:136-176 | Instants are counted up to the latest time any update has seen |
| Scheduler.ReachedCounts | Lampyris.CSharp.Common/Sources/PlannedTaskScheduler.cs:167-176 | The instants reached are exactly those at or before that time |
| Scheduler.ClearedTaskIsGone | Lampyris.CSharp.Common/Sources/PlannedTaskScheduler.cs:125-134 | A cleared task never fires or comes back, whatever follows, and clearing leaves the other tasks as they were |
| SchedulerObject.PlannedTaskScheduler.AddTimeTask | Lampyris.CSharp.Common/Sources/PlannedTaskScheduler.cs:39-54 | Hands out a fresh id and adds one interval task |
| SchedulerObject.PlannedTaskScheduler.AddTickTask | Lampyris.CSharp.Common/Sources/PlannedTaskScheduler.cs:56-71 | Hands out a fresh id and adds one tick task |
| SchedulerObject.PlannedTaskScheduler.AddDailySpecificTimeTask | Lampyris.CSharp.Common/Sources/PlannedTaskScheduler.cs:92-123 | Adds one daily task under a fresh id for hours 0-23, minutes 0-59 and seconds 0-59, and otherwise fails and changes nothing |
| SchedulerObject.PlannedTaskScheduler.Clear | Lampyris.CSharp.Common/Sources/PlannedTaskScheduler.cs:125-134 | Removes that task if it is there |
| SchedulerObject.PlannedTaskScheduler.Visit | Lampyris.CSharp.Common/Sources/PlannedTaskScheduler.cs:146-188 | Counters, firing and removal of one handler are as specified for its kind |
| SchedulerObject.PlannedTaskScheduler.Update | Lampyris.CSharp.Common/Sources/PlannedTaskScheduler.cs:136-198 | In any table order: each due task runs once, finished ones are removed, the others keep their counters |
| Ini.GetIniValue | Lampyris.CSharp.Common/Sources/IniSupport/IniConfigManager.cs:149-180 | The loop with its section flag finds what the recursive scan finds |
| Ini.Save | Lampyris.CSharp.Common/Sources/IniSupport/IniConfigManager.cs:88-143 | The loops write the groups in order of first use, with comments and separating lines |
| IniText.GroupsInOrderOfUse | Lampyris.CSharp.Common/Sources/IniSupport/IniConfigManager.cs:85-119 | There is one group for each section in use, in the order of first use, each with exactly the entries saved under it, in order |
| IniText.PrintedLines | Lampyris.CSharp.Common/Sources/IniSupport/IniConfigManager.cs:128-143 | The lines from nothing upwards: a group is its header and a blank line, and each entry puts its comment, if any, and its pair in front of that |
| IniText.OneMemberFile | Lampyris.CSharp.Common/Sources/IniSupport/IniConfigManager.cs:88-143 | The lines of the file of a class with one member: its section, its description as a comment, its attribute's name with its value, and a blank line |
| IniText.LookupFindsFirstWritten | Lampyris.CSharp.Common/Sources/IniSupport/IniConfigManager.cs:149-180 | In a file written by hand, with sections in any order and repeated and entries before the first header, a lookup finds the first entry with that section and key, or nothing |
| IniText.OtherLinesSkip | Lampyris.CSharp.Common/Sources/IniSupport/IniConfigManager.cs:153-166 | Blank lines, comments, and lines that are neither headers nor have an equals sign say nothing, whatever blanks are in front |
| IniText.LineIsRead | Lampyris.CSharp.Common/Sources/IniSupport/IniConfigManager.cs:31 | A line ends at `\n`, `\r\n` or a lone `\r`, and the last one need not be ended |
| Ini.LookupFindsFirstSaved | Lampyris.CSharp.Common/Sources/IniSupport/IniConfigManager.cs:114-180 | For well-formed entries without line breaks, looking up a section and key in the saved file gives the first value saved for them, and nothing exactly when there is none |
| Ini.LookupIsReadable | Lampyris.CSharp.Common/Sources/IniSupport/IniConfigManager.cs:149-180 | Whatever was saved, a lookup returns a value only for a section, key and value that a line can give back: on one line, trimmed, no `=` in the key, not a comment or a header |
| Ini.SpacedEntryEffect | Lampyris.CSharp.Common/Sources/IniSupport/IniConfigManager.cs:155-176 | Any blanks around the key and the value, empty ones included, do not change what an entry's line does to a lookup |
| Ini.SpacedLineEffect | Lampyris.CSharp.Common/Sources/IniSupport/IniConfigManager.cs:155-166 | Blanks around any line, header or comment included, make no difference |
| Ini.LinesSurviveFile | Lampyris.CSharp.Common/Sources/IniSupport/IniConfigManager.cs:128-143 | Lines without line breaks come back from the text of the file, with either platform's line ending |
| Ini.MemberComesBack | Lampyris.CSharp.Common/Sources/IniSupport/IniConfigManager.cs:37-98 | Beside members that read as one entry each, a saved member with a one-line description comes back from the file exactly when its section, load key and value can be read back and the first member saved under that key has the same value |
| Ini.NamedMembersComeBack | Lampyris.CSharp.Common/Sources/IniSupport/IniConfigManager.cs:37-98 | With a name on every attribute, no duplicates, one-line descriptions, and sections, names and values that can be read back (trimmed, on one line, not a comment or a header), everything comes back from the file |
| Ini.UnnamedMemberIsLost | Lampyris.CSharp.Common/Sources/IniSupport/IniConfigManager.cs:98 | A concrete member without an attribute name that is saved and not restored |
| IniText.UnnamedMemberReadsAnother | Lampyris.CSharp.Common/Sources/IniSupport/IniConfigManager.cs:50 | A member without a name in its attribute reads what another member saved under its own name |
| Ini.LineBreakIsLost | Lampyris.CSharp.Common/Sources/IniSupport/IniConfigManager.cs:139 | A concrete named member with a line break in its value that is saved and not restored |
| Ini.PaddedValueIsLost | Lampyris.CSharp.Common/Sources/IniSupport/IniConfigManager.cs:174 | A concrete named member with blanks around its value that is saved and not restored |
| Ini.DescriptionInjects | Lampyris.CSharp.Common/Sources/IniSupport/IniConfigManager.cs:135-139 | A line break in a description puts an entry into the file that a lookup finds before the saved one |
| Components.Registry.RegisterComponents | Lampyris.CSharp.Common/Sources/Ioc/Components.cs:36-133 | Succeeds exactly when no two listed types claim one abstract base; then every key holds an instance that belongs there, nothing is missing, each tag lists its components in order, and the lifecycle list holds each concrete type with a lifecycle as often as listed, lower priorities first; a second call changes nothing |
| Components.Registry.RegisterOne | Lampyris.CSharp.Common/Sources/Ioc/Components.cs:62-125 | One concrete type: its own key, its base keys, its tag list, its place in the lifecycle list, or the conflict |
| Components.Registry.WalkBases | Lampyris.CSharp.Common/Sources/Ioc/Components.cs:73-107 | The walk up the base chain ends, fails exactly on a taken base, and sets exactly the abstract non-generic bases |
| Components.RegisteredIsInstance | Lampyris.CSharp.Common/Sources/Ioc/Components.cs:68-96 | Whatever a key holds is an instance of that type |
| Components.OneImplementationPerBase | Lampyris.CSharp.Common/Sources/Ioc/Components.cs:94-101 | At most one nameless implementation per abstract base |
| Components.BaseKeysExactly | Lampyris.CSharp.Common/Sources/Ioc/Components.cs:68-107 | A type is registered under exactly the abstract non-generic classes any number of steps up its base chain, if it has no name and its direct base is abstract |
| Components.TaggedInOrder | Lampyris.CSharp.Common/Sources/Ioc/Components.cs:110-118 | Each listed component stands in the list of its tag behind those listed before it |
| Components.LifecyclesExactly | Lampyris.CSharp.Common/Sources/Ioc/Components.cs:122-125 | Each listed concrete type with a lifecycle is there as often as it is listed, and nothing else |
| Components.Registry.ResolvedIsInstance | Lampyris.CSharp.Common/Sources/Ioc/Components.cs:173-196 | What every lookup answers after registration: a concrete type its own instance if listed; an abstract type without a name the instance of `u` exactly when `u` is listed and claims that type; an abstract type by name nothing |
| Components.Registry.PerformDependencyInjection | Lampyris.CSharp.Common/Sources/Ioc/Components.cs:139-170 | Succeeds exactly when every autowired field and writable property of every component resolves, and then each holds what that lookup answers |
| Components.Registry.InjectionIsTypeCorrect | Lampyris.CSharp.Common/Sources/Ioc/Components.cs:139-196 | Each injected member holds an instance of its type, and none of them asked for an abstract type by name |
| Components.SortSorts | Lampyris.CSharp.Common/Sources/Ioc/Components.cs:130 | Sorting by priority gives a sorted permutation |
| CircularBuffer.BufferIsNewestHistory | Lampyris.CSharp.Common/Sources/Container/CircularBuffer.cs:19-88 | After any adds and indexed writes the contents are the newest part of an unbounded history of the same operations |
| CircularBuffer.AddsKeepNewest | Lampyris.CSharp.Common/Sources/Container/CircularBuffer.cs:19-43 | Adding a list keeps exactly its last min(n, capacity) elements |
| CircularBuffer.WindowAfterAdd | Lampyris.CSharp.Common/Sources/Container/CircularBuffer.cs:19-33 | Writing at the tail and moving tail, and head when full, appends to the window and drops its oldest element |
| CircularBuffer.RingBuffer.Create | Lampyris.CSharp.Common/Sources/Container/CircularBuffer.cs:11-17 | An empty buffer, or an exception for a capacity that is not positive |
| CircularBuffer.RingBuffer.Add | Lampyris.CSharp.Common/Sources/Container/CircularBuffer.cs:19-33 | Appends, dropping the oldest element when full |
| CircularBuffer.RingBuffer.ToArray | Lampyris.CSharp.Common/Sources/Container/CircularBuffer.cs:35-43 | A fresh array with the contents, oldest first |
| CircularBuffer.RingBuffer.Get | Lampyris.CSharp.Common/Sources/Container/CircularBuffer.cs:50-69 | Index i is element i from the oldest, index -k element k from the newest end, and anything else is an exception |
| CircularBuffer.RingBuffer.Set | Lampyris.CSharp.Common/Sources/Container/CircularBuffer.cs:70-87 | Changes exactly the element that the index names in the same way, or fails and changes nothing |
| BidirectionalDictionary.BidirectionalDictionary.Add | Lampyris.CSharp.Common/Sources/Container/BidirectionalDictionary.cs:20-29 | Adds the pair when key and value are both new, else fails and changes nothing; the maps stay inverse |
| BidirectionalDictionary.BidirectionalDictionary.RemoveByKey | Lampyris.CSharp.Common/Sources/Container/BidirectionalDictionary.cs:86-93 | Removes exactly that key's pair; the maps stay inverse |
| BidirectionalDictionary.BidirectionalDictionary.RemoveByValue | Lampyris.CSharp.Common/Sources/Container/BidirectionalDictionary.cs:98-105 | Removes exactly that value's pair; the maps stay inverse |
| BidirectionalDictionary.BidirectionalDictionary.GetByValue | Lampyris.CSharp.Common/Sources/Container/BidirectionalDictionary.cs:76-81 | The key whose value this is, or a failure exactly when there is none |
| BidirectionalDictionary.BidirectionalDictionary.Clear | Lampyris.CSharp.Common/Sources/Container/BidirectionalDictionary.cs:110-114 | Empties both maps |
| BidirectionalDictionary.BidirectionalDictionary.Set | Lampyris.CSharp.Common/Sources/Container/BidirectionalDictionary.cs:119-140 | The old relation without every pair sharing the key or the value, plus the new pair; the maps stay inverse |
| ObjectPool.PoolIsSafe | Lampyris.CSharp.Common/Sources/Container/ObjectPool.cs:29-62 | In every interleaving, whatever is generated and returned, pooled objects and pending adds stay within maxCapacity + k - 1; if callers return only what they hold and the generator makes new objects, no object is ever held twice or held and pooled |
| ObjectPool.EveryRunIsBounded | Lampyris.CSharp.Common/Sources/Container/ObjectPool.cs:45-62 | The bound is kept from any state in which it holds |
| ObjectPool.OwnershipExactly | Lampyris.CSharp.Common/Sources/Container/ObjectPool.cs:29-62 | At every moment of a run every object is in one place exactly when each step returns or generates an object that is the thread's own or nobody's, or drops it |
| ObjectPool.StepKeepsExclusive | Lampyris.CSharp.Common/Sources/Container/ObjectPool.cs:29-62 | The same for one step |
| ObjectPool.DoubleReturnSharesObject | Lampyris.CSharp.Common/Sources/Container/ObjectPool.cs:45-62 | A run from the empty pool in which an object returned twice is held by two threads |
| ObjectPool.BoundIsReached | Lampyris.CSharp.Common/Sources/Container/ObjectPool.cs:53-56 | The bound cannot be improved: for any capacity and number of threads a run from the empty pool reaches it, in which callers return only what they hold |
| ObjectPool.SharedPool.Get | Lampyris.CSharp.Common/Sources/Container/ObjectPool.cs:29-39 | An uninterrupted call takes a pooled object, or generates one when the pool is empty |
| ObjectPool.SharedPool.Return | Lampyris.CSharp.Common/Sources/Container/ObjectPool.cs:45-62 | An uninterrupted call adds any object while there is room and otherwise drops it; null fails and changes nothing |

## Left out

- HTTP, Qt networking, timers and plugin loading, real file access, JSON text and reflection: only their effect on the modelled stores is kept.
- The launcher's ten-second timeout, which loads the old files.
- Failed uploads, downloads and deletions, and publishes that overlap a launch: the code only logs such failures. A publisher killed between writing `version.json` and the last upload is one of them.
- A hand-edited `version.json` with null or missing members, nested folders, and the endpoints' answers to malformed requests; one platform directory is modelled.
- ResourceHistory.SkippingIsSafe: assumes that no publish breaks the version guard, which the code does not check; ResourceLimits.ReissueBreaksSkipping shows what happens when one does.
- Files that stay on the server after they are withdrawn: the code never deletes an upload, and nothing is claimed of them.
- Messages.RoundTrip: states sizes up to 2^31 - 1 only, because `CalculateSize` is an `int` and larger messages cannot be written.
- Wire groups (wire types 3 and 4 as a pair): a start-group tag counts as malformed here, while the library skips the group. Tags of 2^32 and above are rejected.
- The library keeps unknown fields grouped by number; here they keep their order of arrival.
- UTF-8 checks and transcoding: strings are byte sequences.
- Sharing between message objects: nested messages are values, so two objects that hold the same sub-message are not modelled.
- Repeated-field writers and the unknown-field set are library code and are used as one call each.
- The remaining payloads of the envelopes (Trading, Quote and the other strategy and application messages): they repeat the same field patterns and stand behind the arms left open in Payloads.RequestLawful.
- Equals, GetHashCode and Clone of the generated classes.
- Rounding of the interval totals, which are `float` in the code; overflow of task ids and of the date range; actions that throw or call back into the scheduler; daylight-saving shifts.
- Scheduler.IntervalFiresExactly: measures the first firing from the previous update, or from timestamp 0 before any; so a task in a fresh scheduler fires at the first update.
- Convert.ChangeType and reading members by reflection in the INI code, culture-sensitive comparison in StartsWith, and missing-file handling.
- An empty list of assemblies, which does nothing, a second registration after one that threw, the partly injected state after a failed injection, and the lifecycle calls themselves.
- Which of several lifecycle components with equal priority comes first, and the order of types within the abstract and concrete halves: any order is allowed.
- First, Last, Count and Capacity of the ring buffer, enumeration of the dictionary.
- Coroutines, loggers, UI, script compilation, message dispatch, quote and trading services, list and math helpers: outside the modelled protocols or easy members.
