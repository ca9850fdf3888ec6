# A verified model of the sitespeed API

The service runs sitespeed.io on behalf of a client, in a Docker container or a Kubernetes
pod, keeps the report it produces in an object store, and serves its pages and its
screenshot from a local cache. This project models that behaviour in Dafny and proves what
the service relies on: that a report is served as the container wrote it, when the cache
changes no answer, when analyses do not disturb each other, that pods, containers and
slots are not lost, that a signed link opens one report and no other, and that a
compressed response says how it is encoded. `dafny verify dfyconfig.toml` checks it all.

## How it is laid out

- `Wrappers`, `Text`, `Decimal`, `Base64Url`: options and bytes, and the parts of Go's
  `strings`, `strconv` and `encoding/base64` that the service uses.
- `Paths`, `Extract`, `ZipDir`, `Report`, `Results`: the way of a report. Lexical path
  cleaning, unpacking a tar stream on the disk, walking a directory into a zip, looking a
  name up in it, and clearing and filling the result directory.
- `Entries`: what a stream leaves on the disk, told from its entries alone.
- `Keys`, `Footprints`: the names of objects, files and directories; what a disk holds at a
  path and below it, taken out and put back.
- `Requests`: the four handlers as step machines on what one id owns.
- `Interleaving`, `Places`: any number of requests interleaved, over any shared state that
  ids see a slice of; and the service's own state, one store and one disk.
- `Readers`, `Race`, `Examples`, `Sequential`: readers that overlap; the runs that show what
  the theorems depend on, and concrete requests for them; and requests one after another.
- `Server`: the handlers as methods on the shared store and disk, proved to do what the step
  machines do.
- `PodRecreate`, `PodWatch`: the two protocols spoken with the Kubernetes API server.
- `Slots`, `Sweep`: slots, containers and the orphan sweep.
- `ResultAuth`: signed links, the cookie they turn into, and a browser using both.
- `Compress`: the compressing response writer.
- `NodeSelector`: the node selector setting.

An operation that changes state in the service is a method on a class here, proved equal
to a function of the old state; the theorems are lemmas about those functions, over all
inputs, runs and interleavings. What the service does not control (the object store, the
API server, the container engine, clocks, other programs) is a parameter or a
nondeterministic choice, and may fail at every call.

## What the proofs brought to light

The model keeps the code as it is. Where an expected property does not hold, the exact
condition is proved instead.

- The extractors' prefix check means "strictly below the destination" exactly when the
  cleaned destination ends in a proper name. For `/` and `.` it refuses everything; for a
  destination made of `..` components it lets an entry climb out (`Paths.ContainmentExactly`).
  The result directory of every id other than `.` is of the good kind
  (`Keys.ResultDirEndsInName`).
- Different ids share no path exactly when RESULT_BASE_DIR is clear of the temporary
  directory: not that directory or its cache, not above it by way of a name that an id may
  have, and not below a name that a zip or a screenshot there may have
  (`Keys.FootprintsApartExactly`, `Places.SeparateExactly`). They are then independent of
  each other (`Places.HandlersDoNotInterfere`). The default directories are clear
  (`Keys.SubdirectoryClear`). With RESULT_BASE_DIR=/tmp the result directory of `x.zip` lies
  where the zip of `x` goes, and an analysis of the one makes that of the other fail
  (`Race.ZipNameCollides`).
- The id `.` passes the handlers' check, and its result directory is the base directory
  itself. Its analysis takes the results of others away while they are being packed
  (`Race.DotCollides`). The theorems about independence are about all other ids.
- A request that runs alone leaves cache and store in disagreement exactly when a download
  breaks part-way, when a removal that is done quietly fails, or, for the screenshot only,
  when an analysis uploads its screenshot and then fails to store its zip
  (`Requests.CoherentExactly`).
- When requests for one id overlap, three kinds of step alone can end the agreement of cache
  and store, up to requests that are about to restore it: the same three, where a download
  also counts that saves what is not stored any more (`Interleaving.SoundWithoutSpoiling`).
  Such a step does end it exactly when the file it leaves is not what is stored and no other
  request is going to drop the file or to complete it to what is stored, all of which can be
  told before the step (`Interleaving.SoundExactly`). A read that overlaps an analysis can
  take such a step, without any fault (`Race.StaleCacheRace`).
- A download creates the cached file and fills it afterwards. A reader that opens it in
  between answers 404 for a stored report (`Race.PartialReadRace`). Readers among themselves
  are answered from the store whenever none of them is in between, and leave cache and store
  in agreement however they overlap (`Readers.QuietReadersAnswered`,
  `Readers.ReadersLeaveCoherent`); what the file holds in between, and when that is already
  the object, follows from the order of their steps (`Readers.OverlappingReadersExactly`).
- A reader whose file is dropped by an analysis or a deletion after it was found answers 404
  as well (`Race.DroppedReadRace`). Where nobody else is at work on the file, that is the only
  way for a reader without a fault of its own to miss what is stored
  (`Interleaving.ReadersAnswerFromStore`).
- A result directory that cannot be cleared is only logged. What is left of the old report
  is then part of the new one, exactly where the new one does not write
  (`Results.LeftoversShowExactly`).
- Sweeping never takes a Docker container in use if start delay and directory set-up leave
  61 seconds of the timeout. The Kubernetes copy has no such bound, so there the sweep can
  meet a copy that is under way (`Sweep.SweepSafeExactly`, `Sweep.KubernetesSweepUnsafe`).
- On a cluster a removal only begins the end of a pod, so the pods can outnumber the slots by
  those that are terminating (`Slots.SlotsBoundContainers`, `Slots.TerminatingPodsCount`).
- Waits on one pod never contradict each other exactly when all versions that decide it
  decide it alike (`PodWatch.WaitsAgreeExactly`); a watch that stays up and one that is
  dropped and re-read end alike exactly under the same condition from the first Get on, or
  when that Get decides (`PodWatch.ConfluenceExactly`).
- The compressing writer takes an informational status for the final one: the final status of
  a handler is sent exactly when it does not send an informational one first
  (`Compress.FinalStatusSentExactly`). No handler of this service sends one.
- With less than a second left, a link's cookie gets Max-Age 0, which Go sends as no Max-Age
  at all, so the browser keeps it for its session (`ResultAuth.CookieLifetime`). The link's
  own expiry still ends the access (`ResultAuth.UnsignedVisitExactly`).

## Hypotheses

- An upload that fails leaves the object as it was; so does a failed deletion. A Create of
  a pod that reports an error has created nothing.
- What a zip reader reads from a written zip are the entries written (`Requests.Lawful`);
  what a decompressor makes of compressed bytes is the input (`Compress.Lossless`).
- HMAC-SHA256 yields 32 bytes (`ResultAuth.SignatureShape`), or does not collide (`ResultAuth.SignatureBinds`,
  `ResultAuth.OneReportAtATime`): each lemma assumes one of the two, never both.
- What the runner produces for a request is fixed with the request, and so is every failure
  of a foreign call. Ids do share the channel of slots: an analysis that waits too long for
  one fails because of others. `Results.FreshFolder` and `Results.CollectGrafts` are why the
  folder itself depends on the container's stream alone.
- The temporary directory, its cache directory and the base directory exist where they are
  needed, or are made on demand; failing to make the cache directory is a fault of the
  request. Paths are compared as texts: a relative one of the two directories is not resolved
  against the working directory.
- While a download is under way, others see one and the same beginning of it, of any length,
  until it is complete. A file that is removed stays with those who have it open, and writing
  to it has no effect on a later file at its path. Packing a report, and reading a cached file
  once it is open, are single steps.
- Files the service does not own do not change under its hands.

## Model

| member | source | states |
|---|---|---|
| `Paths.ContainmentExactly` | internal/kubernetes/runner.go:538-543 | the traversal guard accepts a name if and only if its target is strictly below the destination, for every name, exactly when the destination ends in a name |
| `Paths.GuardExact` | internal/docker/runner.go:275-280 | for a destination that ends in a name, a string prefix of cleaned paths is the same as being below it component by component, so that a sibling directory whose name merely begins alike is refused |
| `Paths.PrefixGuardMeaning` | internal/kubernetes/runner.go:541 | on canonical paths the text prefix test is the test on component lists |
| `Paths.RootAcceptsNothing` | internal/kubernetes/runner.go:541 | with a destination that cleans to "/" or "." even a plain name is refused |
| `Paths.DotsLetEscape` | internal/kubernetes/runner.go:541 | with a destination made of ".." components the name "../x" is accepted and lies outside |
| `Paths.CleanIdempotent` | internal/kubernetes/runner.go:541 | cleaning a cleaned path changes nothing |
| `Paths.ResolveJoin` | internal/kubernetes/runner.go:538 | joining then cleaning is resolving the name from the directory, for every name including climbing ones |
| `Paths.IdleParts` | internal/kubernetes/runner.go:538 | one more separator, or "/.", makes no difference to the path a text resolves to |
| `Paths.ResolveAlike` | internal/kubernetes/runner.go:538 | texts that resolve alike still do with anything after them, so that each of these rules holds in the middle of a path too |
| `Paths.NamePart` | internal/kubernetes/runner.go:538 | a text followed by a separator and a name resolves to the child of that name |
| `Paths.ParentPart` | internal/kubernetes/runner.go:538 | a text followed by "/.." resolves to the parent, to the root itself at the root, and to one ".." more where there is none |
| `Paths.NameAndBack` | internal/kubernetes/runner.go:538 | a name and then ".." lead back: cleaning d + "/x/.." is cleaning d |
| `Paths.ClimbLeaves` | internal/kubernetes/runner.go:538-541 | from a rooted destination other than the root, "../x" resolves to the sibling x, outside of it |
| `Paths.NamesAreClean` | internal/kubernetes/runner.go:541 | a text of plain names between single separators is clean as it stands |
| `Paths.ShortTexts` | internal/kubernetes/runner.go:541 | the empty text cleans to ".", and a separator to itself |
| `Extract.Disk.ExtractTar` | internal/kubernetes/runner.go:522-561 | the loop leaves the disk, and reports the error, that applying the planned writes in order up to the first failure does |
| `Extract.Disk.CopyFromContainer` | internal/docker/runner.go:251-298 | the same for the Docker loop, which drops the first name component |
| `Extract.Disk.WriteEntry` | internal/kubernetes/runner.go:545-557 | one accepted entry does to the disk what its planned write does; what that write is, `Entries.PlanIs` says on the entry |
| `Extract.Disk.ExtractFile` | internal/kubernetes/runner.go:563-573 | a directory in the way is an error and nothing changes; otherwise the file has the content, even if a short one that is an error |
| `Extract.MkdirAllSpec` | internal/kubernetes/runner.go:547-553 | making a directory succeeds exactly when no file stands on the way, and adds exactly the missing directories |
| `Extract.ApplySpec` | internal/kubernetes/runner.go:545-557 | when one write succeeds, as a condition on the tree, and the tree it leaves |
| `Extract.StopsAtFirst` | internal/kubernetes/runner.go:545-557 | a failed extraction ends at one write: all before it succeeded, and nothing after it is written |
| `Extract.WrittenExactly` | internal/kubernetes/runner.go:533-557 | an entry is written if and only if its kind is supported, it has a name and its target lies strictly below the destination, and it is written to that target |
| `Extract.ExtractionContained` | internal/kubernetes/runner.go:524-560 | whatever the stream holds and however it ends, nothing outside the destination changes |
| `Extract.SucceedsExactly` | internal/docker/runner.go:252-295 | a stream extracts without error if and only if its entries are complete and no path is needed both as file and as directory, in whatever order |
| `Extract.ExtractedTree` | internal/kubernetes/runner.go:524-560 | after an error-free stream each path holds the last file written to it, else what was there, else a directory that was needed, else nothing |
| `Extract.Reordered` | internal/kubernetes/runner.go:524-560 | the same writes in another order succeed alike, and leave the same tree if repeated paths agree |
| `Extract.ExtractionConfluence` | internal/docker/runner.go:252-295 | every permutation of an entry sequence extracts alike, for either runner |
| `Extract.SamePlan` | internal/docker/runner.go:264-275 | one member packed under a leading directory and packed under "./" is written to the same place by the two runners |
| `Extract.RunnersAgree` | internal/docker/runner.go:264-293 | a whole archive of either packing gives the same disk and the same error |
| `Entries.PlanIs` | internal/kubernetes/runner.go:524-573 | on the entry alone, for both runners: it becomes a file with its content if it is regular, a directory if it is one, at the path its name resolves to below the destination, and nothing otherwise |
| `Entries.ExtractsExactly` | internal/docker/runner.go:252-295 | on the entries alone: a stream extracts without error if and only if it ends, its regular entries are complete, and no path is both that of a regular entry or file and that of, or above, another |
| `Entries.ExtractedHolds` | internal/kubernetes/runner.go:524-573 | on the entries alone: after an error-free stream a path holds the content of the last regular entry that resolves to it; without one, what was there; else a directory if a directory entry is at it or an entry below it; else nothing |
| `Entries.ReportRoundTrip` | internal/handler/handler.go:258-294 | extract, pack, look up: for every stream and path, what is served is what the entries say of the name the path stands for |
| `ZipDir.ZipWriter.ZipDirectory` | internal/utils/zip.go:11-76 | succeeds if and only if the target can be created and nothing in the tree is unreadable, and then the archive written is that of the tree: one entry a key, in walk order |
| `ZipDir.ZipWriter.Visit` | internal/utils/zip.go:21-72 | the callback fails exactly for a key that cannot be looked at, opened or read, and otherwise appends its entry: slash-separated name, a final "/" for directories, content for files, nothing for the root |
| `ZipDir.ZipWriter.WalkDir` | internal/utils/zip.go:21 | the walk fails exactly if something at or below the directory is unreadable, and otherwise appends the entries of everything there, the directory first |
| `ZipDir.ArchiveComplete` | internal/utils/zip.go:21-72 | the archive has exactly one entry for every key of the tree and no other: no key comes twice |
| `ZipDir.WalkOrderKeys` | internal/utils/zip.go:21 | the walk visits every key below a directory, and nothing else |
| `ZipDir.WalkOrderAscends` | internal/utils/zip.go:21 | keys come in ascending order, so none twice and parents before children |
| `ZipDir.NameOrder` | internal/utils/zip.go:21 | the order of names is byte order: at the first difference the smaller character, or the end, comes first |
| `ZipDir.RelOrder` | internal/utils/zip.go:21 | a directory comes before all below it, and siblings with all below them in the order of their names |
| `Report.FindFile` | internal/handler/handler.go:258-294 | the default page, the slashes and the two search loops give the entry that the specification looks up |
| `Report.FirstNamedMeaning` | internal/handler/handler.go:275-280 | in a packed tree the first entry of a name is the file, or the directory, that the tree holds under it |
| `Report.NamesOnce` | internal/utils/zip.go:21-72 | no two entries of a packed tree have one name |
| `Report.LookupServesFolder` | internal/handler/handler.go:258-294 | for every request path, looking up a packed tree serves the file, directory entry or index page that the tree holds under the name the path stands for, told by the characters of the path, and nothing otherwise |
| `Report.StartPage` | internal/handler/handler.go:258-260 | the empty path is answered as "index.html", with the file of that name if the tree has one |
| `Report.BackslashesAreSlashes` | internal/handler/handler.go:261 | a path with backslashes is answered as the path with slashes in their place, in any archive |
| `Report.FileOfPath` | internal/handler/handler.go:275-280 | any other path gets the file that the tree holds at its components |
| `Report.ExtractedFolder` | internal/kubernetes/runner.go:524-560 | an error-free extraction leaves a well-formed directory tree below the destination |
| `Results.CollectResults` | internal/kubernetes/runner.go:295-312 | clearing (errors only logged), making and filling the result directory leaves the disk and error of the specification |
| `Results.FreshReport` | internal/docker/runner.go:217-235 | for every disk, id, stream and path: the packed report of a cleared and filled result directory serves what the entries of the stream say |
| `Results.FreshTells` | internal/docker/runner.go:217-235 | the folder left by clearing and filling holds at each path what the entries alone say, whatever was there before |
| `Results.FreshPage` | internal/docker/runner.go:217-235 | a path is served with the content of the last regular entry that resolves to it |
| `Results.CollectSucceedsExactly` | internal/docker/runner.go:217-235 | collecting succeeds exactly when no file stands at or above the result directory, and the entries of the stream extract onto nothing |
| `Results.CollectContained` | internal/kubernetes/runner.go:295-312 | nothing but the result directory and its missing parents changes |
| `Results.CollectGrafts` | internal/kubernetes/runner.go:295-312 | on the disk as a whole, collecting replaces what is at and below the result directory with the folder of the stream, and changes nothing else |
| `Results.LeftoversShowExactly` | internal/kubernetes/runner.go:296-298 | after a failed clearing the report is the stream's own if and only if nothing left over is untouched by it |
| `Keys.ZipKeyInjective` | internal/handler/handler.go:183 | different ids have different zip objects |
| `Keys.ShotKeyInjective` | internal/handler/handler.go:163 | different ids have different screenshot objects |
| `Keys.ZipIsNoShot` | internal/handler/handler.go:163-183 | no zip object is anyone's screenshot object |
| `Keys.FilesDistinct` | internal/handler/handler.go:172-194 | the local files of all ids are told apart by kind and id |
| `Keys.ResultDirEndsInName` | internal/docker/runner.go:218 | the result directory of a checked id other than "." is a child of the base directory, of the kind the guard is exact for |
| `Keys.ResultDirInjective` | internal/docker/runner.go:218 | different ids have different result directories |
| `Keys.FootprintsApartExactly` | internal/handler/handler.go:172-194 | for any two directories: no local path of one id is or contains a path of another, for all ids, if and only if the base directory is clear of the temporary one, a test on the two paths |
| `Keys.UnclearMeets` | internal/docker/runner.go:218 | where they are not clear, two ids of which one's result directory meets a file of the other |
| `Keys.ClearSelf` | internal/handler/handler.go:172-194 | in clear directories the four paths of one id are apart as well |
| `Keys.SubdirectoryClear` | internal/docker/runner.go:39-86 | any directory of its own below the temporary one is clear, as with the two default directories |
| `Keys.DotIdCoversOthers` | internal/handler/handler.go:62-66 | the id "." is let through, and its result directory contains those of all others |
| `Requests.AnalyzeOutcome` | internal/handler/handler.go:55-223 | what a complete analysis answers and leaves in store, cache and disk, at every point it can stop |
| `Requests.RefusedExactly` | internal/handler/handler.go:62-92 | 400 is answered if and only if the id is empty, contains a slash, a backslash or "..", or the body of an analysis is not acceptable |
| `Requests.AnalyzedExactly` | internal/handler/handler.go:102-194 | an analysis is answered with its data if and only if it is acceptable, the runner succeeded, the report has a directory under pages and a summary that parses, and packing and uploading succeed; the stored zip becomes the packed report then, and stays as it was otherwise |
| `Requests.ScreenshotStored` | internal/handler/handler.go:162-170 | the stored screenshot becomes the file at the screenshot path of the least page directory, if it is there and its upload succeeds, and stays as it was otherwise |
| `Requests.DeleteOutcome` | internal/handler/handler.go:320-348 | a deletion answers 200 and removes exactly the objects and cache files whose removal does not fail |
| `Requests.ReadOutcome` | internal/handler/handler.go:225-256 | what a read answers and what it caches, for every failure |
| `Requests.CleanReadAnswers` | internal/handler/handler.go:225-318 | undisturbed, from an agreeing cache: 404 for nothing stored, for a zip that does not open and for a path it does not hold; 500 for an entry that does not open; else the entry, or the image |
| `Requests.DirectoryInPlace` | internal/handler/handler.go:380-405 | a directory in the place of a cached file is served as an empty image, and as no zip |
| `Requests.OverwrittenAt` | internal/storage/storage.go:95-113 | what a file holds after bytes were written at a place: those bytes there, zero in a gap before, and the old ones elsewhere |
| `Requests.CoherentExactly` | internal/handler/handler.go:165-194 | a request that runs alone leaves the cached object absent or equal to the stored one if and only if it is none of the spoiling kinds, for the zip and for the screenshot |
| `Requests.StepMends` | internal/handler/handler.go:172-194 | every single step of every handler keeps the cache coherent or due to be put right by its own request, unless it is a spoiling step |
| `Requests.OtherMends` | internal/handler/handler.go:190-194 | what another request is going to put right stays so through every step, or is put right by it |
| `Requests.PresentKept` | internal/handler/handler.go:239-256 | a cached file stays at its path through every step of every handler but one that drops it |
| `Places.SeparateExactly` | internal/handler/handler.go:163-194 | the objects, files and directories kept for different ids are separate on one store and one disk if and only if the two directories are clear of each other |
| `Places.SeparateSlices` | internal/handler/handler.go:163-194 | in separate places, whatever one id puts on store and disk is what it sees, and no other id sees it |
| `Interleaving.NonInterference` | internal/handler/handler.go:55-405 | removing all steps of other ids' requests from any interleaved run leaves every response for an id, and all that it owns, unchanged, where ids do not see each other's changes |
| `Places.HandlersDoNotInterfere` | internal/handler/handler.go:55-405 | so for the handlers on the shared store and disk, for all clear directories |
| `Interleaving.SoundExactly` | internal/handler/handler.go:190-194 | over every interleaving of any requests with any faults, the cached object agrees with the stored one, or a request in flight will make it so, at every point of the run if and only if no step is of a spoiling kind, leaves a file that is not what is stored, and has no other request to drop or complete that file; a test on the states before the steps |
| `Interleaving.SoundWithoutSpoiling` | internal/handler/handler.go:165-194 | only three kinds of step can end that agreement; a run without them keeps it, whatever else fails |
| `Interleaving.RestIsCoherent` | internal/handler/handler.go:190-194 | with nothing in flight for the id, that is agreement |
| `Places.HandlersStayCoherent` | internal/handler/handler.go:190-194 | all three for the handlers on the shared store and disk |
| `Interleaving.ReadersAnswerFromStore` | internal/handler/handler.go:239-318 | where nobody else is between changing the object and dropping the cached one, or between creating the cached file and completing it, a read that finishes has answered from what is stored at that moment if and only if its file is still there, or nothing is to be served |
| `Readers.ReadersRun` | internal/storage/storage.go:95-113 | what overlapping downloads of one object have made of the cached file at every point of a run, holes included, from the order of their steps |
| `Readers.ReadersLeaveCoherent` | internal/handler/handler.go:239-256 | however any number of readers of an id overlap, beside any requests for other ids: whenever none is between creating the file and completing it, and so when they are done, cache and store agree |
| `Readers.QuietReadersAnswered` | internal/handler/handler.go:239-263 | a reader that opens the file at such a moment is answered from the store |
| `Readers.OverlappingReadersExactly` | internal/handler/handler.go:239-263 | at any other moment it is answered from the bytes that the steps so far have made of the file, which are the object exactly if they are written whole, cut off at its very end, or have a hole where it is zero; and then, for a screenshot or where an incomplete zip does not open, exactly is the answer the stored one |
| `Race.StaleCacheRace` | internal/handler/handler.go:239-250 | a read overlapping a complete analysis of its id ends with the old zip in the cache and the new one in the store, without any fault |
| `Race.PartialReadRace` | internal/storage/storage.go:105-111 | a reader that finds the file another has created and not completed answers 404, while the other is served |
| `Race.DroppedReadRace` | internal/handler/handler.go:242-263 | a reader whose file is dropped by an analysis after it was found answers 404, though a report was stored all along |
| `Race.ZipNameCollides` | internal/handler/handler.go:172-176 | with one directory for both, an analysis of "x" fails beside one of "x.zip" and succeeds without it |
| `Race.DotCollides` | internal/handler/handler.go:62-66 | an analysis of any id fails beside one of "." and succeeds without it |
| `Examples.ZipNameExample` | internal/handler/handler.go:172-176 | the ids "a" and "a.zip", on an empty store and disk |
| `Examples.DotExample` | internal/handler/handler.go:62-66 | the ids "a" and ".", on an empty store and disk, for all clear directories |
| `Examples.StaleCacheExample` | internal/handler/handler.go:239-250 | for every id, a coherent cache from which that race leaves an incoherent one with nothing in flight |
| `Race.RepeatFinishes` | internal/handler/handler.go:55-405 | every handler ends within a fixed number of steps |
| `Sequential.HandleRefines` | internal/handler/handler.go:225-405 | one request, with any fault but the named ones: same response and same store with and without a cache, from and to a coherent cache |
| `Sequential.ServeRefines` | internal/handler/handler.go:225-405 | one request for any id, refused ones included, keeps the refinement for all ids |
| `Sequential.CacheInvisible` | internal/handler/handler.go:225-405 | over every run of analyses, reads and deletions of any ids, failing anywhere but in a torn download, an ignored removal or (for the screenshot) between the two uploads, the caching service answers writers and faultless readers of the object like one without a cache |
| `Sequential.ServiceCacheInvisible` | internal/handler/handler.go:225-405 | the same on the shared store and disk, for all clear directories |
| `Sequential.StreamToReader` | internal/handler/handler.go:133-318 | from the container's stream to the response, on the shared store and disk beside any interleaved requests for other ids: after a stored analysis a read of any path gets what the entries of the stream say of the name it stands for |
| `Sequential.EntryToReader` | internal/handler/handler.go:133-318 | so a read of a path is answered with the content of the last regular entry that resolves to it |
| `Sequential.PathAnswers` | internal/handler/handler.go:258-261 | in every state, the empty path is answered as "index.html", and a path with backslashes as that with slashes |
| `Sequential.ScreenshotToReader` | internal/handler/handler.go:162-405 | after an analysis that stored it, a read of the screenshot gets the file that was left for the first page |
| `Sequential.StreamToNextRead` | internal/handler/handler.go:133-318 | the same on what one id owns |
| `Sequential.RunnerStepCollects` | internal/kubernetes/runner.go:295-312 | the runner's part of an analysis, on the shared disk, is clearing and filling the result directory |
| `Server.Handler.HandleAnalyze` | internal/handler/handler.go:55-223 | on the shared store and disk the method does what the step machine does to the slice of its id, and nothing else |
| `Server.Handler.HandleGetResult` | internal/handler/handler.go:225-318 | the same for reading a page |
| `Server.Handler.HandleGetScreenshot` | internal/handler/handler.go:350-405 | the same for reading the screenshot |
| `Server.Handler.HandleDeleteResult` | internal/handler/handler.go:320-348 | the same for deleting |
| `Server.Handler.InspectReport` | internal/handler/handler.go:106-165 | finds the first page's screenshot, or nothing if a part the service needs is missing |
| `Server.Handler.FirstPage` | internal/handler/handler.go:108-131 | the loop picks the least directory name under pages |
| `Server.Handler.StoreReport` | internal/handler/handler.go:172-194 | packs, uploads, clears the cache only after the upload succeeded, and leaves at the temporary path what each failure leaves there |
| `Server.Handler.UploadFile` | internal/storage/storage.go:72-93 | an upload stores the whole file or changes nothing |
| `Server.Handler.DownloadFile` | internal/storage/storage.go:95-113 | nothing is created without an object; the file is created and then filled; a copy that breaks leaves a beginning of it behind |
| `Server.DistinctActs` | internal/storage/storage.go:72-121 | every single change of a store object, a file or a directory at the place of an id is that change of its slice and of nothing else |
| `PodRecreate.EnsurePodRecreated` | internal/kubernetes/runner.go:321-333 | for every behaviour of the name slot: the calls follow the protocol, at most the allowed Creates are made, success gives a pod newer than the call, and an error means that none was created and that a Get failed, a Create was refused for another reason than a conflict, a wait found the pod at every poll of its budget, or all Creates met a conflict |
| `PodRecreate.WaitUntilPodDeleted` | internal/kubernetes/runner.go:336-355 | polls until a Get finds nothing, and succeeds only then; gives up only when a Get fails, or when every Get of the whole budget has found the pod |
| `PodRecreate.CreatePodWithRetry` | internal/kubernetes/runner.go:359-384 | retries on conflict only, each time after deleting and waiting again, at most the allowed number of times; an error has one of the four reasons above |
| `PodRecreate.RecreationSafe` | internal/kubernetes/runner.go:318-384 | over all calls made: each Create directly follows a Get that found nothing, the pod returned is of the only Create that succeeded, an error means none did, and Deletes exceed Creates by at most one |
| `PodRecreate.CreateAfterNotFound` | internal/kubernetes/runner.go:359-384 | no Create without a NotFound seen after the latest Delete |
| `PodRecreate.DeleteCount` | internal/kubernetes/runner.go:321-384 | the number of Deletes at each point of the protocol, in terms of the Creates |
| `PodRecreate.OwnedIsLast` | internal/kubernetes/runner.go:359-384 | nothing is called after the Create that succeeded |
| `PodWatch.PodReady` | internal/kubernetes/runner.go:389-409 | the early-returning loops compute the order-free verdict |
| `PodWatch.JudgedExactly` | internal/kubernetes/runner.go:389-409 | the verdict in plain words: failing for a failed pod or an init container that exited with another code than 0; ready for a ready results container without that |
| `PodWatch.JudgeIgnoresOrder` | internal/kubernetes/runner.go:389-409 | permuting the status lists does not change the verdict |
| `PodWatch.ReadyMeansFinished` | internal/kubernetes/runner.go:386-409 | in every reachable state of a pod's life a ready verdict means that the analysis exited with code 0 |
| `PodWatch.FailedIsFailing` | internal/kubernetes/runner.go:389-401 | an analysis that exited with another code than 0, and is reported, is judged failing |
| `PodWatch.ReadyIsReady` | internal/kubernetes/runner.go:402-409 | in every reachable state of a pod that has not failed, a results container reported as ready is judged ready |
| `PodWatch.WatchUntilReady` | internal/kubernetes/runner.go:458-489 | a watch session skips no version, restarts if and only if the channel is closed or delivers an error, is interrupted if and only if the context ends, and otherwise reports the first decided version |
| `PodWatch.WaitForInitContainer` | internal/kubernetes/runner.go:416-452 | however often the watch is dropped, the result is the verdict of the first decided version observed; it is an interruption if and only if the last call was a failed Get, a failed Watch or the end of the context |
| `PodWatch.FinishedMeansExited` | internal/kubernetes/runner.go:386-452 | a wait that ends well has observed a version of the pod's life at which the analysis had exited with code 0 |
| `PodWatch.WatchConfluence` | internal/kubernetes/runner.go:411-489 | if all versions that decide from the first Get on decide alike, every schedule of drops, errors and re-reads returns the class of the first of them |
| `PodWatch.WaitDecides` | internal/kubernetes/runner.go:411-489 | a wait none of whose calls is one of these three ends with that class, however often its watch is dropped |
| `PodWatch.GoneDecides` | internal/kubernetes/runner.go:411-489 | a wait that has seen the pod deleted fails |
| `PodWatch.AbsorbingConfluence` | internal/kubernetes/runner.go:411-489 | so for every pod that stays in its class once decided |
| `PodWatch.ConfluenceExactly` | internal/kubernetes/runner.go:411-489 | all schedules of a wait return the class of the first decided version if and only if its first Get decides or all later versions that decide decide alike |
| `PodWatch.WaitsAgreeExactly` | internal/kubernetes/runner.go:411-489 | waits on one history never contradict each other if and only if all versions that decide decide alike |
| `PodWatch.FlappingDisagrees` | internal/kubernetes/runner.go:432-451 | wherever a later version decides otherwise than the first, an unbroken watch and one dropped before return opposite results |
| `Slots.Host.RunOnDocker` | internal/docker/runner.go:106-239 | every exit path has given back the slot, after removing the container if one was created; success means that results were copied |
| `Slots.Host.RunOnKubernetes` | internal/kubernetes/runner.go:155-316 | the same for the pod; results are copied only after a wait that ended well |
| `Slots.CallConserves` | internal/docker/runner.go:115-239 | a complete call attempts one removal per created container and one release per acquired slot, in that order, at its end |
| `Slots.CallsExactly` | internal/docker/runner.go:106-239 | the complete calls are exactly the listed sequences of foreign calls: on Docker logs after a bad end and a stop after a failed wait, on a cluster logs after either, results copied last, the container removed and the slot given back on every path |
| `Slots.RunnersLive` | internal/docker/runner.go:115-239 | in every run without sweeps, each running call has its container |
| `Slots.CopyAfterCleanEnd` | internal/docker/runner.go:197-235 | results are copied only after the analysis ended with code 0 |
| `Slots.CopyAfterExit` | internal/kubernetes/runner.go:287-307 | after such a wait, on a pod whose versions report its life, the analysis had exited with code 0 |
| `Slots.MoveConserves` | internal/docker/runner.go:115-121 | every move of any call, every sweep, and every pod that ends terminating, keeps the conservation invariant |
| `Slots.SlotsBoundContainers` | internal/docker/runner.go:115-238 | in every reachable state of any number of concurrent analyses, tokens are the calls between acquire and release, at most the capacity; live containers are at most the capacity plus failed removals, and on a cluster plus terminating pods |
| `Slots.TerminatingPodsCount` | internal/kubernetes/runner.go:274-280 | one slot, no failed removal, and two live pods |
| `Sweep.CleanupOrphaned` | internal/docker/runner.go:333-359 | nothing happens if the listing fails; otherwise removal is attempted for exactly the listed containers older than twice the timeout, one after another, and those whose removal does not fail are gone |
| `Sweep.RemovedExactly` | internal/docker/runner.go:345-356 | a container is gone after a sweep exactly when it was old enough and its own removal did not fail, whatever happened to the others |
| `Sweep.SweepSafeExactly` | internal/docker/runner.go:344-352 | no sweep at any time selects a container in use if and only if delay, set-up, copy and the lost fraction of a second fit into the timeout |
| `Sweep.DockerSweepSafe` | internal/docker/runner.go:241-243 | with the copy bounded at a minute, 61 seconds of slack suffice |
| `Sweep.KubernetesSweepUnsafe` | internal/kubernetes/runner.go:491-520 | a copy that takes as long as the timeout can meet the sweep, whatever the timeout is |
| `Sweep.LeftoverIsSelected` | internal/cleanup/cleanup.go:11-30 | a container left behind is selected within twice the timeout plus one interval plus the duration of a sweep from its creation, or by the first sweep if it is older, by none before and by every later one; sweeps follow a ticker made after the first and lose ticks while they run |
| `NodeSelector.ParseNodeSelector` | internal/kubernetes/runner.go:132-153 | the loop collects the pairs of the comma-separated list, later keys winning, and returns nil for none |
| `NodeSelector.TrimIsRedundant` | internal/kubernetes/runner.go:133 | trimming the whole setting first makes no difference to the pairs |
| `NodeSelector.ParsePrinted` | internal/kubernetes/runner.go:132-153 | any list printed with any blanks and malformed entries reads back as what its items say |
| `NodeSelector.PrintParse` | internal/kubernetes/runner.go:132-153 | a selector map printed in any order reads back as itself |
| `Compress.CompressResponseWriter.InitWriter` | internal/middleware/compress.go:55-67 | marks the headers and opens the compressor of the negotiated coding |
| `Compress.CompressResponseWriter.WriteHeader` | internal/middleware/compress.go:69-87 | the first status is sent, marked unless it must pass through; later ones are dropped |
| `Compress.CompressResponseWriter.Write` | internal/middleware/compress.go:89-97 | sends a status first if none was sent, then passes the bytes on or compresses them |
| `Compress.RunState` | internal/middleware/compress.go:48-103 | the whole state after any sequence of header edits, statuses and writes, from the sequence alone |
| `Compress.CompressionTransparent` | internal/middleware/compress.go:48-103 | with gzip or zstd, for every sequence: at most one status is sent, the first; a 204, a 304 and a body the handler has encoded itself go out as written, with the handler's headers; everything else decodes to what was written, with Content-Encoding and Vary set, Content-Length removed and the other headers kept |
| `Compress.PlainRun` | internal/middleware/compress.go:69-97 | with no coding, status, headers and body go out as the handler sends them |
| `Compress.MarkedHeaders` | internal/middleware/compress.go:55-67 | the headers of a compressed response, one by one |
| `Compress.FinalStatusSentExactly` | internal/middleware/compress.go:69-75 | for every sequence that names a final status or writes, that status is the one sent if and only if no informational one comes first |
| `Decimal.ParseFormat` | internal/handler/result_auth.go:67-75 | parsing a formatted number returns it, over all 64-bit integers |
| `Decimal.ParseIsLenient` | internal/handler/result_auth.go:75 | every number also parses with a plus sign and any leading zeros |
| `Decimal.Positional` | internal/handler/result_auth.go:67-69 | numbers are written in base ten, the most significant digit first, negative ones with a minus sign |
| `Base64Url.DecodeEncode` | internal/handler/result_auth.go:46-48 | decoding an encoding returns the bytes, and encodings stay within the URL-safe alphabet |
| `Base64Url.EncodedLength` | internal/handler/result_auth.go:46-48 | the length without padding is four thirds, rounded up |
| `ResultAuth.MessageInjective` | internal/handler/result_auth.go:43-49 | no two pairs of id and expiry are signed as the same message, ids with line breaks included |
| `ResultAuth.SignatureShape` | internal/handler/result_auth.go:43-49 | every signature is 43 characters that neither a URL nor the cookie format gives a meaning |
| `ResultAuth.SignatureBinds` | internal/handler/result_auth.go:82-91 | without MAC collisions, two accepted grants have the same signature if and only if they have the same id and expiry |
| `ResultAuth.GrantRoundTrip` | internal/handler/result_auth.go:64-80 | parsing an encoded grant returns it |
| `ResultAuth.AcceptedRoundTrip` | internal/handler/result_auth.go:150-165 | every grant accepted from a query after 1970 meets the conditions of that round trip |
| `ResultAuth.AcceptedIsSafe` | internal/handler/result_auth.go:167-180 | the cookie library drops nothing from the cookie of an accepted grant |
| `ResultAuth.CookieTTL` | internal/handler/result_auth.go:182-198 | the computed lifetime is the smaller of the configured one and the time to the link's expiry, and never negative |
| `ResultAuth.CookieLifetime` | internal/handler/result_auth.go:167-198 | for an accepted grant the lifetime is positive, at most the configured one, and ends no later than the link; Max-Age is its whole seconds |
| `ResultAuth.ResponseWriter.SetResultAuthCookie` | internal/handler/result_auth.go:167-180 | sets one cookie with the grant's encoding, or none when no lifetime is left |
| `ResultAuth.ResponseWriter.ResultAuthMiddleware` | internal/handler/result_auth.go:111-148 | when a request is served and which cookie it gets, for every setting of secret and token; and in plain seconds: a link signed for its id is served until its expiry, with one cookie of its signature and expiry, and an expiry that is no number is refused |
| `ResultAuth.PlainAnswer` | internal/handler/result_auth.go:111-165 | the same as a lemma on the answer: minted links, requests without a signature or with a malformed expiry, and requests that bring the cookie of a link, told by the MAC of id and expiry and by plain seconds |
| `ResultAuth.CookieRead` | internal/handler/result_auth.go:64-80 | a cookie value is read by the two sides of its first ".", and refused without one, without a signature, or with an expiry that is negative or no number |
| `ResultAuth.CookieIsLastGrant` | internal/handler/result_auth.go:111-148 | after any sequence of visits the cookie held is the encoding of the last grant accepted from a query |
| `ResultAuth.UnsignedVisitExactly` | internal/handler/result_auth.go:111-148 | a visit without signature is served if and only if that grant is still held and still valid for the id asked for |
| `ResultAuth.OneReportAtATime` | internal/handler/result_auth.go:111-148 | so it reaches only the report of the last link followed |

## Left out

- Building the clients of Docker, Kubernetes and S3, exec streaming, pulling images and fetching logs: only the success or failure of these calls is modelled.
- HMAC-SHA256, gzip, zstd, and the byte formats of tar and zip: uninterpreted functions with the laws listed under Hypotheses; tar and zip files are sequences of entries.
- JSON decoding, URL validation and the web-vital fields of the response: the model has only whether they succeed. Reading of the page-weight summary, whose failure is ignored, is left out with them.
- Routing, MIME types, Cache-Control and Last-Modified headers, tracing and logging, the health handler, `negotiateEncoding` and the configuration from the environment: no property that spans operations.
- `CleanupStaleResultDirs`: rests on modification times kept by the file system. A result directory left by a runner that fails while copying is its business and is not modelled after the call returns.
- Two analyses of one id at the same time share a pod name, a temporary zip and a result directory. The service claims no isolation there: the theorems on what is stored are about single analyses, those on cache and store and on other ids allow any number.
- Symbolic links, permissions, and directories that other programs change during an extraction: the disk is a map from paths to nodes.
- A pod Create that succeeds although its reply is lost: the caller cannot tell it from a failed one.
- Writes that reach the client before a compressor is closed, and what `net/http` itself does with informational statuses: the body counts when the writer is closed.
- ResultAuth.CookieLifetime: whole seconds are computed over the integers, where the code goes through a floating-point number of seconds.
