# Backplane release and rollback tooling, modelled in Dafny

Backplane ships through scripts that change state other people depend on: files a browser
may still request, rows people are editing, a schema two releases share, a public bucket.
This project models those scripts and proves what they promise over whole histories: every
sequence of deployments, every interleaving of edits, every point at which a run can be cut
off. `dafny verify dfyconfig.toml` checks all of it.

| file | models |
|---|---|
| `AssetRetention.dfy`, `AssetHistory.dfy` | retention of hashed frontend assets |
| `SpdxLicense.dfy`, `SpdxText.dfy` | the decision on declared SPDX licence expressions |
| `CrateClosure.dfy` | which crates a desktop binary links |
| `MediaRewrite.dfy`, `KeysetPaging.dfy`, `MediaDiscovery.dfy` | compare-and-swap rewrite of stored links, and its discovery |
| `CaptureLevels.dfy`, `RichRollback.dfy` | migration 119 and the rollback that keeps its schema |
| `DesktopPublish.dfy` | publishing desktop releases to a bucket |
| `Changelog.dfy`, `ChangelogPositions.dfy`, `ChangelogRoundTrip.dfy`, `ChangelogLines.dfy` | reading CHANGELOG.md |
| `LicenseCoverage.dfy`, `SlugBackfill.dfy`, `Checksums.dfy`, `ForwardedChain.dfy` | licence-text coverage, board slugs, SHA256SUMS, forwarded chains |
| `Containers.dfy`, `Text.dfy`, `Options.dfy` | shared sets, maps, strings and options |

Code that changes things step by step is imperative here too: `AssetRetention.Store`,
`SpdxLicense.Reader`, `MediaRewrite.Database`, `RichRollback.Connection`,
`DesktopPublish.Store` and `Changelog.Reader` are classes whose methods follow the source's
loops and writes. Each is proved equal to a function of the old state, and the lemmas are
about that function. Iteration over a Python set or dictionary is an arbitrary choice of
element, so the results hold for every order. File systems, buckets and tables are maps and
each atomic write is one step. `AssetRetention.Store.trace` records the disk after each of them.

Parameters stand for what the scripts do not decide: the clock, the canonical form of a
link, what storing a JSON text does to it (`normal`), lower-casing, the digest, address
parsing, the search for restrictive terms, and what people or other processes do in between.

## Results that correct a promise

- *Restore puts back the discovered text* (rewrite_signed_media_links.py:32-33). True of plain
  columns. For the JSON column the text goes through load and dump, so it comes back exactly
  when that leaves it unchanged (`MediaRewrite.RestoreGivesBack`). `MediaDiscovery.RestoreReformats`
  shows a content written without spaces that comes back with them.
- *A second dry run must report `changes: 0`, and only edited rows are left* (rewrite_signed_media_links.py:30-38).
  With nobody editing, it reports none if and only if no stored text has yet another canonical form in a
  row that is selected again (`SecondRunFindsNothing`, `SecondRunIff`), and a cell is left to rewrite if and
  only if it was missed by the filter or has such a text (`PendingAfterPassIff`). `CapitalsMissed` shows a
  link the filter misses, LIKE being case-sensitive and the canonical form not. `RewrittenTwice` shows
  a text that is a JSON document only after its first rewrite.
- *`updated_at` is written back unchanged* (rewrite_signed_media_links.py:37-38). A swap that
  applies leaves the timestamp recorded at discovery. It is unchanged exactly when no edit of
  another column had moved it (`StampIsTheDiscoveredOne`; `StampRewound` shows a row where it is rewound).
- *A published version is never written again* (release_desktop.py:146-149). The guard takes a failing
  listing for an empty one. A publish writes over an object exactly when the version has objects,
  the listing did not show them and at least one upload is made (`OverwriteIff`; `FailedListingOverwrites`
  shows it). That every manifest names a present archive holds regardless (`ManifestsNameArchives`).
- *A destination recovers from an interrupted run.* With a manifest it does, wherever the run was
  killed (`EveryStateSound`). Without one it is readable if and only if every file in it has a hashed
  name (`ReadableIffUnblocked`). `KilledFirstRunBlocks` shows a first run that leaves a temporary file,
  and from such a state every later run refuses, for good (`BlockedForever`).
- *CHANGELOG.md repeats the anchor* (platform-release.py:73-74). An anchor used twice is not always
  refused. A text is refused if and only if the earlier anchor was recorded: its next line that is
  not blank exists and is neither an anchor nor a heading other than a release
  (`ChangelogPositions.RefusedIff`). `OverwrittenAnchorAccepted` and `DroppedAnchorAccepted` show two
  texts that are accepted.
- *Verification is empty when the bundle is intact* (bundle.py:39). True if and only if no file name
  has a character at which `splitlines` ends a line (`Checksums.IntactIff`; `NewlineInNameFails` shows one).

## Model

| member | source | states |
|---|---|---|
| AssetRetention.MergeSeeds | frontend/scripts/retain-assets.py:65-67 | the loop leaves each name the later of its stored and seeded deadlines |
| AssetRetention.StampRetired | frontend/scripts/retain-assets.py:68-69 | exactly the retired names get the new deadline, every other keeps its own |
| AssetRetention.Timetable | frontend/scripts/retain-assets.py:65-73 | merge, stamp, expiry and cap together give the schedule the history lemmas are about |
| AssetRetention.Clashes | frontend/scripts/retain-assets.py:77-82 | true exactly if some kept name exists on both sides with different bytes |
| AssetRetention.Prepare | frontend/scripts/retain-assets.py:55-82 | all refusals and the plan, decided before anything is written |
| AssetRetention.Store.CopyMissing | frontend/scripts/retain-assets.py:83-86 | in any order: every missing kept file is copied, nothing else changes, and each disk on the way has the old manifest and the old files |
| AssetRetention.Store.DeleteRest | frontend/scripts/retain-assets.py:88-90 | in any order: only kept files remain, and each disk on the way holds all files the new manifest lists |
| AssetRetention.Store.RetainAssets | frontend/scripts/retain-assets.py:54-90 | the whole run equals `Retain`; a refusal leaves assets, manifest and trace untouched; every state between two atomic writes is a `DuringRun` state |
| Containers.NewestIffFewLarger | frontend/scripts/retain-assets.py:71-72 | the sorted prefix keeps a deadline exactly when fewer than cap distinct deadlines are later |
| AssetHistory.ReadBack | frontend/scripts/retain-assets.py:87 | a written manifest is read back by the inventory as the plan it came from |
| AssetHistory.HashedNameIff | frontend/scripts/retain-assets.py:19 | a name is admitted if and only if it is a stem, a hyphen, a hash of at least eight characters, a dot and a suffix, of the admitted characters |
| AssetHistory.InventoryIff | frontend/scripts/retain-assets.py:22-39 | what is read without a manifest, and exactly when a manifest is accepted or refused for its names or its deadlines |
| AssetHistory.DecideIff | frontend/scripts/retain-assets.py:54-82 | a run goes ahead if and only if grace and cap are positive, both folders are readable and every kept file present on both sides has the same bytes; it then plans the release and the schedule |
| AssetHistory.WhyRefused | frontend/scripts/retain-assets.py:55-82 | the reason given is the first check that fails |
| AssetHistory.KeptIff | frontend/scripts/retain-assets.py:65-73 | a retired asset is kept if and only if it has not expired and fewer than cap distinct live deadlines are later than its own |
| AssetHistory.ScheduleWithinCap | frontend/scripts/retain-assets.py:72-73 | at most cap distinct deadlines survive a run |
| AssetHistory.RetiredReleaseKept | frontend/scripts/retain-assets.py:68-73 | the release just retired is never reached by the cap and gets the full grace period |
| AssetHistory.FinishedContents | frontend/scripts/retain-assets.py:74-90 | the finished disk has exactly the kept files, active ones with the source's bytes, surviving ones with the bytes they had |
| AssetHistory.InterruptionIsReadable | frontend/scripts/retain-assets.py:42-51 | cut off anywhere, a leftover temporary file included, the disk has the old or the new manifest and every name it lists exists |
| AssetHistory.EveryStateSound | frontend/scripts/retain-assets.py:54-90 | every state of every history of completed, refused and killed runs has a valid manifest with disjoint parts, bounded deadlines and at most cap of them |
| AssetHistory.CompletedRun | frontend/scripts/retain-assets.py:63-90 | a completed run, anywhere in any history: files are exactly active plus expiring, disjoint, at most cap deadlines in (now, now + grace], all files of the retired release unchanged and present |
| AssetHistory.BytesNeverChange | frontend/scripts/retain-assets.py:77-86 | while a hashed name stays on disk its bytes never change, over any history |
| AssetHistory.RetiredAssetSurvives | frontend/scripts/retain-assets.py:65-74 | over any history a retired asset stays until a run at or after its deadline or one that sees cap later live deadlines |
| AssetHistory.RerunChangesNothing | frontend/scripts/retain-assets.py:63-90 | a second run with the same source and time leaves the disk as it is when seeds are at most now + grace |
| AssetHistory.KilledFirstRunBlocks | frontend/scripts/retain-assets.py:42-51 | a first run that has files to copy, killed in its first write, can leave a blocked destination |
| AssetHistory.BlockedForever | frontend/scripts/retain-assets.py:27-36 | a manifest-less destination holding a file under another name never changes again |
| AssetHistory.DeploymentGoesThrough | frontend/scripts/retain-assets.py:54-90 | where hashed names address contents, a deployment anywhere in any history of completed, refused and killed runs goes through if and only if its image is readable and the destination is not blocked |
| AssetHistory.FirstRunPlan | frontend/scripts/retain-assets.py:118-122 | under the raised cap the first of the two runs drops no unexpired deadline and leaves room for one more |
| AssetHistory.SecondRunPlan | frontend/scripts/retain-assets.py:120-123 | retiring the predecessor adds at most one deadline, so the second run drops none either |
| AssetHistory.AssembleIff | frontend/scripts/retain-assets.py:104-123 | preserving assembly succeeds if and only if the arguments are positive, both inputs are readable, the source has no manifest and no new file differs from a preserved one of its name |
| AssetHistory.AssembleKeepsEverything | frontend/scripts/retain-assets.py:104-123 | the image holds exactly the new files and the predecessor's active and unexpired ones, byte for byte, with inherited deadlines kept |
| SpdxLicense.Reader.ReadAny | companion/scripts/build_desktop.py:185-190 | the OR loop computes `AnyOf` from the position it starts at and ends at its end, or fails with it |
| SpdxLicense.Reader.ReadAll | companion/scripts/build_desktop.py:192-197 | the AND loop computes `AllOf` likewise |
| SpdxLicense.Reader.ReadOne | companion/scripts/build_desktop.py:199-211 | one operand, parenthesis or WITH computes `One`; the mutual recursion ends on the remaining tokens |
| SpdxLicense.ReadTokens | companion/scripts/build_desktop.py:213-217 | the decision on a token list equals `Accepts` |
| SpdxLicense.PrintedIsRead | companion/scripts/build_desktop.py:185-217 | reading a printed sentence consumes all of it and gives its meaning |
| SpdxLicense.AcceptsIff | companion/scripts/build_desktop.py:169-217 | a token list is accepted if and only if it prints a sentence, AND tighter than OR, that the allowlist satisfies |
| SpdxLicense.PrintDeterminesMeaning | companion/scripts/build_desktop.py:185-211 | two sentences that print alike mean the same |
| SpdxLicense.PrintingStyles | companion/scripts/build_desktop.py:170-172 | any expression, with minimal or full parentheses, is decided by its meaning |
| SpdxText.DeclaredIds | companion/scripts/build_desktop.py:68 | the licences a declaration may name |
| SpdxText.ScanAtSpace | companion/scripts/build_desktop.py:165-166 | a space splits a text into the tokens of its two sides |
| SpdxText.ScanAtParen | companion/scripts/build_desktop.py:165-166 | a parenthesis is a token of its own, spaced or not |
| SpdxText.SlashReadsAsOr | companion/scripts/build_desktop.py:166 | a slash reads exactly as the token OR between the two sides |
| SpdxText.DeclaredLicenseAllowed | companion/scripts/build_desktop.py:169-217 | the decision on a text is the decision on its tokens under the declared allowlist |
| SpdxText.DeclaredTextDecides | companion/scripts/build_desktop.py:165-217 | an expression written as text in either style is accepted if and only if allowed licences satisfy it |
| CrateClosure.ClosedIsReachable | companion/scripts/build_desktop.py:266-273 | a closed set of reachable nodes around the root is the reachable set |
| CrateClosure.Expand | companion/scripts/build_desktop.py:269-273 | one node's dependencies keep the worklist invariant, and either something new is seen or the list shrinks |
| CrateClosure.Collect | companion/scripts/build_desktop.py:267-273 | on every graph, cyclic ones included, the worklist ends with exactly the nodes reachable by normal dependencies, or stops if and only if one of them is unresolved |
| CrateClosure.AddTarget | companion/scripts/build_desktop.py:274-276 | a target adds exactly its linked crates other than the root and overwrites only those |
| CrateClosure.LinkedCrates | companion/scripts/build_desktop.py:259-276 | the crates are exactly those linked in at least one target, each described by the last target that links it |
| MediaRewrite.Database.CompareAndSwap | backend/scripts/rewrite_signed_media_links.py:255-265 | the row changes only if its cell still holds the discovered text, and the answer says so |
| MediaRewrite.Database.ApplyChanges | backend/scripts/rewrite_signed_media_links.py:268-281 | for every batch size and every edit in between: the history is the interleaving, applied counts the swaps that matched, applied plus skipped is the number of changes |
| MediaRewrite.EachChangeTriedOnce | backend/scripts/rewrite_signed_media_links.py:272-280 | across batches each change is tried exactly once, in order |
| MediaRewrite.EditsInOrder | backend/scripts/rewrite_signed_media_links.py:272-280 | no edit made during a pass is lost or reordered |
| MediaRewrite.AppliedCountMeans | backend/scripts/rewrite_signed_media_links.py:275-276 | applied is the number of swaps that found the expected value when their turn came |
| MediaRewrite.OthersUntouched | backend/scripts/rewrite_signed_media_links.py:255-281 | over any history a cell no change names holds only what people put there |
| MediaRewrite.PassOnCell | backend/scripts/rewrite_signed_media_links.py:255-281 | over any history a changed cell sees the edits before its swap, the swap if it still matched, and the edits after |
| MediaRewrite.RestoreGivesBack | backend/scripts/rewrite_signed_media_links.py:316-322 | apply then restore, with other rows edited meanwhile, rewrites the cell and puts it back, exactly when storing its text does not reformat it |
| MediaRewrite.RestoreAfterCutOff | backend/scripts/rewrite_signed_media_links.py:268-281 | an apply cut off after any change, then a full restore: reached cells are put back, the others were never changed |
| MediaRewrite.RestoreLeavesEdits | backend/scripts/rewrite_signed_media_links.py:316-322 | restore changes a cell if and only if it holds exactly what the rewrite wrote |
| MediaRewrite.StampKept | backend/scripts/rewrite_signed_media_links.py:262 | while nobody edits a row its timestamp stays the discovered one |
| MediaRewrite.RestoreKeepsStamp | backend/scripts/rewrite_signed_media_links.py:316-322 | apply then restore leaves a row nobody edits with the timestamp it had |
| MediaRewrite.StampIsTheDiscoveredOne | backend/scripts/rewrite_signed_media_links.py:259-264 | an applied swap leaves the discovered timestamp, equal to the one it found if and only if no edit had moved it |
| MediaRewrite.StampRewound | backend/scripts/rewrite_signed_media_links.py:37-38 | a row whose other column was edited has its timestamp rewound |
| KeysetPaging.PageFacts | backend/scripts/rewrite_signed_media_links.py:169-172 | a page is increasing, above the last key, and leaves out only later keys, and then only when full |
| KeysetPaging.Scan | backend/scripts/rewrite_signed_media_links.py:166-177 | under any changes between pages the scan ends, its keys strictly increase, each row was found as yielded and every row that matches throughout is yielded |
| KeysetPaging.ScanStatic | backend/scripts/rewrite_signed_media_links.py:166-177 | on an unchanging table the scan yields exactly its rows |
| MediaDiscovery.DiscoverTable | backend/scripts/rewrite_signed_media_links.py:217-246 | the change list of one scanned table is the one the next three lemmas describe |
| MediaDiscovery.OneChangePerCell | backend/scripts/rewrite_signed_media_links.py:217-246 | increasing keys give at most one change per cell of a table |
| MediaDiscovery.ReportedRow | backend/scripts/rewrite_signed_media_links.py:223-224 | each change reports a scanned row's text, canonical form and timestamp |
| MediaDiscovery.NothingMissed | backend/scripts/rewrite_signed_media_links.py:238-246 | every scanned column whose canonical form differs has its change |
| MediaDiscovery.Discover | backend/scripts/rewrite_signed_media_links.py:194-252 | over all four queries, whatever is committed between pages: at most one change per cell, each true of a selected row as some page found it, and one for every cell that needs it at every page |
| MediaDiscovery.ListedIff | backend/scripts/rewrite_signed_media_links.py:194-252 | a discovery names a cell of a row nobody changes meanwhile if and only if its query selects the row and the canonical form differs |
| MediaDiscovery.PendingAfterPassIff | backend/scripts/rewrite_signed_media_links.py:35-38 | after a pass a cell of an untouched row needs rewriting if and only if it did before and either its query missed the row or the stored text has yet another canonical form |
| MediaDiscovery.SecondRunIff | backend/scripts/rewrite_signed_media_links.py:30-38 | discover, apply, discover again with people at work on other rows: the second discovery names a cell of an untouched row if and only if it was selected and rewritten, the stored text has yet another canonical form, and the row is selected again |
| MediaDiscovery.SecondRunFindsNothing | backend/scripts/rewrite_signed_media_links.py:30-31 | if nobody edits meanwhile, the second discovery is empty if and only if no listed change has to be made again |
| MediaDiscovery.SourcesCover | backend/scripts/rewrite_signed_media_links.py:207-233 | the five columns that are searched |
| MediaDiscovery.MayHoldIff | backend/scripts/rewrite_signed_media_links.py:134-139 | the filter accepts exactly the texts that contain the storage host, the local download path, or a scheme with the application's path after it |
| MediaDiscovery.CapitalsMissed | backend/scripts/rewrite_signed_media_links.py:134-139 | a note whose storage host is in capitals is never listed and still needs rewriting after the pass |
| MediaDiscovery.RewrittenTwice | backend/scripts/rewrite_signed_media_links.py:30-31 | a note that becomes a document by its first rewrite is listed by the second discovery too |
| MediaDiscovery.RestoreReformats | backend/scripts/rewrite_signed_media_links.py:255-264 | a compact definition content with a link is listed, rewritten and restored, and comes back with spaces |
| CaptureLevels.WithoutRichMeans | backend/alembic/versions/119_session_contents.py:300-304 | `rich` read as `full`, each level once, in order of last occurrence; exactly the other levels, and `full` if `rich` was there |
| CaptureLevels.OnlyOneList | backend/alembic/versions/119_session_contents.py:301 | that description admits one list only |
| CaptureLevels.LatestLevelKept | backend/alembic/versions/119_session_contents.py:18-19 | the last entry, read as the latest level, is kept, or is `full` where it was `rich` |
| CaptureLevels.WithoutRichTwice | backend/alembic/versions/119_session_contents.py:300-304 | applying it twice is applying it once |
| RichRollback.Rewrite | backend/alembic/versions/119_session_contents.py:307-320 | exactly the marked rows are rewritten and counted |
| RichRollback.Connection.RewriteStatuses | backend/alembic/versions/119_session_contents.py:307-320 | every heartbeat loses the member; the count is of the texts LIKE the marker, in which `_` stands for any character |
| RichRollback.OtherNamesFound | backend/alembic/versions/119_session_contents.py:311 | a heartbeat without the member that is found, counted and written back unchanged |
| RichRollback.Connection.ForgetAndStamp | backend/scripts/forget_rich.py:48-52 | the four rewrites in order, then the stamp, equal `Stamp(ForgetRich(db))`; the stamp touches only version 119 with 119's tables |
| RichRollback.Connection.RunUpgrade | backend/alembic/versions/119_session_contents.py:124-297 | constraint first, then object by object, equals `Upgrade` |
| RichRollback.CreationOrdered | backend/alembic/versions/119_session_contents.py:124-297 | every table and index is created after what it needs, once |
| RichRollback.OrderMatters | backend/alembic/versions/119_session_contents.py:124-297 | nothing is created before what it needs or dropped before what needs it |
| RichRollback.UpgradeFromAnySubset | backend/alembic/versions/119_session_contents.py:96-121 | from any subset of 119's objects the upgrade succeeds, reaches the full schema and keeps what its tables and added columns hold |
| RichRollback.UpgradeIff | backend/alembic/versions/119_session_contents.py:63-77 | the upgrade fails if and only if a mapping has a level outside the four |
| RichRollback.UpgradeTwice | backend/alembic/versions/119_session_contents.py:82-84 | upgrading again changes nothing |
| RichRollback.DowngradeIff | backend/alembic/versions/119_session_contents.py:369-396 | the downgrade succeeds if and only if all objects are present, always satisfies the narrower constraint, and leaves none of them and no `rich` |
| RichRollback.UpgradeDowngradeRoundTrip | backend/alembic/versions/119_session_contents.py:369-396 | upgrading and downgrading a database of the previous release gives it back |
| RichRollback.ForgetMeans | backend/alembic/versions/119_session_contents.py:323-352 | row by row: mappings and captures turn `rich` into `full`, sessions that name it keep their levels by last occurrence, heartbeats lose one member and keep the others, nothing else changes |
| RichRollback.StampMeans | backend/alembic/versions/119_session_contents.py:355-366 | only the version changes, and only at 119 with 119's tables |
| RichRollback.ForgetRemovesRich | backend/alembic/versions/119_session_contents.py:323-352 | afterwards no mapping, session, capture or heartbeat names it |
| RichRollback.NothingToForget | backend/alembic/versions/119_session_contents.py:323-352 | a database without `rich` is left as it is |
| RichRollback.EveryState | backend/alembic/versions/119_session_contents.py:23-44 | for every order of starts, rollbacks and writes the version is 118 or 119, 119 means the full schema, and the schema is whole or not begun |
| RichRollback.NothingIsLost | backend/alembic/versions/119_session_contents.py:82-84 | 119's tables, columns and indexes are never lost and only application writes change what they hold |
| RichRollback.RollbackAlwaysWorks | backend/alembic/versions/119_session_contents.py:355-366 | wherever it comes, a committed rollback ends at 118 with nothing naming `rich`, and a start of the current image ends at 119 with the full schema |
| RichRollback.RunnableUntilRestart | backend/alembic/versions/119_session_contents.py:25-39 | the previous image stays runnable until the current one starts again or something writes `rich` |
| DesktopPublish.Store.Run | companion/scripts/release_desktop.py:142-155 | a publish cut off after any upload equals `After` |
| DesktopPublish.AfterMeans | companion/scripts/release_desktop.py:112-155 | cut off after any upload: which bytes of the build stand under each path, every other object unchanged, and nothing at all when the publish is refused |
| DesktopPublish.ManifestsNameArchives | companion/scripts/release_desktop.py:112-127 | over every history of publishes each latest.json in the bucket names an archive that is there |
| DesktopPublish.OverwriteIff | companion/scripts/release_desktop.py:146-154 | a versioned object is written over if and only if the version has objects, the listing did not show them and an upload is made |
| DesktopPublish.FailedListingOverwrites | companion/scripts/release_desktop.py:147-148 | a failing listing over a published version leads to an overwrite |
| DesktopPublish.PublishedIsFinal | companion/scripts/release_desktop.py:146-149 | while listings are truthful a published object never changes |
| DesktopPublish.ChannelsAlwaysDelivered | companion/scripts/release_desktop.py:119-126 | while listings are truthful, a channel has a manifest exactly when some publish completed on it, and it delivers the last that did: its signature, and its archive, signature, disk image and manifest byte for byte |
| Changelog.Reader.ReadLine | scripts/platform-release.py:67-95 | one line updates the reader's fields as `Step` says, or stops on a repeated anchor |
| Changelog.ParseChangelog | scripts/platform-release.py:56-97 | the loop over all lines equals `Parse` |
| Changelog.TagsDisjoint | scripts/platform-release.py:73-74 | on every text that parses, published and unpublished tags are disjoint |
| ChangelogPositions.RefusedIff | scripts/platform-release.py:72-74 | any text is refused if and only if some anchor's tag had an earlier anchor whose next line that is not blank exists and is neither an anchor nor a heading other than a release |
| ChangelogPositions.OverwrittenAnchorAccepted | scripts/platform-release.py:69-72 | an anchor the next one overwrites may be used again |
| ChangelogPositions.DroppedAnchorAccepted | scripts/platform-release.py:91-93 | an anchor another heading drops may be used again |
| ChangelogPositions.EntryIff | scripts/platform-release.py:62-96 | in any text that parses, a tag has an entry if and only if its anchor stands before a release heading with only blank lines between; component, version and date are that heading's, the body is the lines after it up to the next anchor, heading or rule |
| ChangelogPositions.EntriesDisjoint | scripts/platform-release.py:62-96 | the lines of two tags' releases, heading to end of body, do not overlap |
| ChangelogPositions.UnpublishedIff | scripts/platform-release.py:83-93 | a tag is unpublished if and only if its anchor's next line that is not blank is no anchor and no heading |
| ChangelogPositions.UnreleasedIff | scripts/platform-release.py:79-82 | a component's unreleased version is that of its last sub-heading inside an unreleased part, and absent if there is none |
| ChangelogRoundTrip.RoundTrip | scripts/platform-release.py:56-97 | any sections whose anchors repeat no published or unpublished tag parse back to exactly their entries, tags and unreleased versions; releases without notes, dropped anchors and unpublished tags inside an unreleased part are included |
| ChangelogRoundTrip.RepeatedAnchorRefused | scripts/platform-release.py:73-74 | after written sections, an anchor whose tag one of them published or noted is refused, whatever follows |
| ChangelogLines.ParseText | scripts/platform-release.py:67-95 | the text is split into lines and parsed by the kinds their text gives them |
| ChangelogLines.AnchorIff | scripts/platform-release.py:30 | a line is an anchor if and only if it is `<a id="tag"></a>` once stripped |
| ChangelogLines.ReleaseIff | scripts/platform-release.py:31 | a line is a release heading if and only if it is `## Component version — date` |
| ChangelogLines.DateIff | scripts/platform-release.py:31 | a date is four, two and two digits or the mark of an unpublished release |
| ChangelogLines.SubHeadingIff | scripts/platform-release.py:32 | a line announces a version if and only if it is `### Component version` |
| ChangelogLines.UnreleasedHeadingIff | scripts/platform-release.py:79-80 | `## Unreleased` alone opens the unreleased part; other `## ` lines that are no release are other sections |
| ChangelogLines.RuleAndBlankIff | scripts/platform-release.py:76-83 | a rule is `---` and a blank line empty, once stripped |
| ChangelogLines.TextRoundTrip | scripts/platform-release.py:56-97 | the round trip on the text of the file, unreleased versions written from component and version |
| LicenseCoverage.SearchedText | companion/scripts/licenses.py:79-83 | for overlapping, nested or unsorted matches the gathered text is exactly the characters outside every match, in order |
| LicenseCoverage.Uncovered | companion/scripts/licenses.py:79-83 | the loop gathers that text |
| LicenseCoverage.Judge | companion/scripts/licenses.py:74-92 | the ids in order of first appearance, and exactly when a file passes or fails for disallowed ids, restrictive terms or coverage below 80% |
| SlugBackfill.SlugifyValid | backend/alembic/versions/040_add_board_slug.py:28-33 | every name gives a nonempty slug of lowercase alphanumerics and single interior hyphens |
| SlugBackfill.SlugifyMeans | backend/alembic/versions/040_add_board_slug.py:28-33 | the slug is the lowered name's runs of letters and digits, in order, with hyphens between them, or the fallback when there is none |
| SlugBackfill.DecimalValue | backend/alembic/versions/040_add_board_slug.py:56 | the counter is written as its decimal number |
| SlugBackfill.Disambiguate | backend/alembic/versions/040_add_board_slug.py:51-57 | the search ends on the first free candidate within one more test than slugs in use |
| SlugBackfill.Backfill | backend/alembic/versions/040_add_board_slug.py:44-62 | each board gets the first free candidate among the slugs given earlier in its workspace |
| SlugBackfill.SlugsValidAndUnique | backend/alembic/versions/040_add_board_slug.py:44-67 | all slugs are valid and pairwise distinct within a workspace |
| Text.StripIff | scripts/platform-release.py:64 | stripping takes all white space off both ends and nothing else |
| Text.AnyBreak | scripts/platform-release.py:67 | a line ends at any of the ten break characters, a carriage return together with the newline after it |
| Text.SplitText | companion/scripts/bundle.py:34-41 | lines without breaks, each written with its newline, are split back |
| Checksums.LineRoundTrip | companion/scripts/bundle.py:34-43 | a written line is split back into its digest and name |
| Checksums.ParseLineIff | companion/scripts/bundle.py:42 | a line is split at its first two spaces in a row |
| Checksums.ListedIff | companion/scripts/bundle.py:43 | the digest listed for a name is that of the last line that names it |
| Checksums.VerifyChecksums | companion/scripts/bundle.py:38-54 | the report in the script's order, listed names by first occurrence, then files; it fails if and only if a line has no gap |
| Checksums.ReportIff | companion/scripts/bundle.py:44-53 | a problem is in the report if and only if its name is listed and leads to no file or to another digest, or is a file no line lists |
| Checksums.ReportOnce | companion/scripts/bundle.py:44-53 | no problem is reported twice, even if lines repeat a name |
| Checksums.ReportInOrder | companion/scripts/bundle.py:45-53 | problems come in the order of the lines that first name the files, then the unlisted files in the order found |
| Checksums.SumsReadBack | companion/scripts/bundle.py:31-43 | the written file is read back as the lines it was written from |
| Checksums.ReportsExactlyTheChanges | companion/scripts/bundle.py:27-54 | after any later changes the report is exactly the files removed, altered and added |
| Checksums.IntactIff | companion/scripts/bundle.py:31-54 | an untouched bundle verifies without a problem if and only if no file name has a line break |
| Checksums.NewlineInNameFails | companion/scripts/bundle.py:34-42 | an untouched bundle with a newline in a name does not verify |
| ForwardedChain.SplitAtComma | backend/app/core/client_ip.py:50 | a comma separates the entries of its two sides |
| ForwardedChain.SplitPlain | backend/app/core/client_ip.py:50 | a text without a comma is one entry |
| ForwardedChain.CallerTextIgnored | backend/app/core/client_ip.py:40-57 | if the walk stops in what our proxies appended, text before it does not matter |
| ForwardedChain.CallerLinesIgnored | backend/app/core/client_ip.py:60-73 | nor do whole header lines sent first |
| ForwardedChain.CallerCannotChoose | backend/app/core/client_ip.py:60-100 | two requests whose joined chains end in the same deciding text our proxies appended, in each header that is guaranteed, get the same address, whatever stands before it, in that line or earlier ones, and in a header without its guarantee |
| ForwardedChain.ClientIff | backend/app/core/client_ip.py:85-100 | the address is the rightmost untrusted entry of the first header that is guaranteed and has one, the edge chain before the forwarded one, and otherwise the peer |
| ForwardedChain.FoundIsRightmostUntrusted | backend/app/core/client_ip.py:49-57 | an address is returned if and only if it is a chain entry outside every trusted network with only trusted entries to its right |

## Left out

- Symbolic links and directories inside an assets folder, which the inventory refuses: folders hold regular files here.
- Floating point: deadlines are real numbers, so now + grace is always later than now.
- The assembly without `--preserve-unexpired`, which is two ordinary runs, and the choice of `.asset-history` under the predecessor.
- Python's recursion limit on deeply nested licence expressions.
- Reading licence files, pinned notices and npm packages (`_declared_entry`, `npm_entries`): file and registry access.
- The canonicalizer of links, with its URL, JSON and markdown parsing: a parameter, whose values at the failing inputs are stated there.
- The join of cards with their boards and the workspace behind a row: one canonical form of each cell serves all runs.
- The set of unmapped links and the report-only counts of the link rewrite: printed, never acted on.
- The snapshot file of the link rewrite: changes reach the restore as the list that was applied.
- A batch rolled back by a crash: it leaves the history of the batches before it, which `RestoreAfterCutOff` covers; the rollback itself is the database's.
- Migrations after 119: an image's head is 119, so a database stamped later is left alone by both steps.
- Concurrency inside one rollback transaction: writes come before or after it.
- Offline SQL generation of migration 119, and the column types, defaults and keys of its tables.
- The reads that confirm a publish after its last upload, and the notes and date in a manifest.
- Non-ASCII digits in dates of the changelog; link pinning and release notes.
- Uniqueness of the flattened file names in `copy_licenses`: the mapping is not injective.
- Matches that end before they start: a match is an interval, as licensecheck reports them.
- The 255-character limit on a slug column.
- Where a listed path leads (`./a`, absolute paths, links): `find` gives the file at it; the names written are looked up as they are.
- How an address or network is parsed and how the edge secret is compared.
- Completion, scheduling, ingest, pricing, user interface and build drivers: other programs.
