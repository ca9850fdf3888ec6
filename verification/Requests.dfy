/**
 * The four handlers as step machines over one id's stored and local state. Every store
 * call and every change of a file that another request can see is a step of its own, so
 * requests can interleave; running a request's steps without interruption is the handler
 * as the server calls it.
 */
module Requests {
  import opened Wrappers
  import opened Text
  import opened Paths
  import opened Extract
  import opened ZipDir
  import opened Report
  import opened Keys
  import opened Footprints

  /** The zip format and the JSON decoder, left uninterpreted. */
  datatype Codec = Codec(pack: Archive -> Bytes, unpack: Bytes -> Option<Archive>, parses: Bytes -> bool)

  /** Reading back a written zip gives its entries. */
  ghost predicate Lawful(c: Codec) {
    forall a :: c.unpack(c.pack(a)) == Some(a)
  }

  /** The two objects kept of an analysis. */
  datatype Object = Zip | Shot

  /**
   * Everything one id owns: two store objects, and what its four local paths hold. The ages
   * count how often the cached file was removed, which tells an open file from a later one
   * at the same path.
   */
  datatype Slice = Slice(
    zip: Option<Bytes>, shot: Option<Bytes>,
    temp: Local, cachedZip: Local, cachedShot: Local, dir: Local,
    zipAge: nat, shotAge: nat)

  /**
   * Which foreign calls fail during a request. pack holds what a failed packing leaves at
   * the temporary path; torn is the number of bytes a download copies before it breaks;
   * early is how much of a download others can see before it is complete.
   */
  datatype Faults = Faults(
    uploadShot: bool, pack: Option<Option<Bytes>>, uploadZip: bool,
    deleteZip: bool, deleteShot: bool, dropZip: bool, dropShot: bool,
    cacheDir: bool, fetch: bool, create: bool, early: nat, torn: Option<nat>, read: bool, open: bool)

  /** valid: the body decodes and its URLs are acceptable; ran: what the runner produced. */
  datatype Request =
    | Analyze(id: string, valid: bool, ran: Option<ReportTree>, faults: Faults)
    | GetResult(id: string, path: string, faults: Faults)
    | GetShot(id: string, faults: Faults)
    | Delete(id: string, faults: Faults)

  datatype Response =
    | Pending | BadRequest | NotFound | ServerError | Okay
    | Page(entry: ZipEntry) | Image(content: Bytes)

  datatype Stage =
    | Start | Inspect | UploadShot | ClearTemp | Pack | UploadZip
    | DeleteZip | DeleteShot | DropZip | DropShot
    | RemoveTemp | RemoveDir | Fetch | Create | Copy | Read | Done

  /** handle is the age of the cached file that a download has created. */
  datatype Thread = Thread(req: Request, stage: Stage, shot: Option<Node>, body: Bytes, handle: nat, response: Response)

  datatype Progress = Progress(slice: Slice, thread: Thread)

  predicate IsRead(req: Request) {
    req.GetResult? || req.GetShot?
  }

  function Begin(req: Request): Thread {
    Thread(req, Start, None, [], 0, Response.Pending)
  }

  // ----- what an analysis reads from the result directory -----

  function PageDirs(t: Folder): set<string> {
    set n | n in Children(t, ["pages"]) && Get(t, ["pages"] + [n]) == Some(Dir)
  }

  function ShotPath(page: string): Rel {
    ["pages", page, "data", "screenshots", "1", "afterPageCompleteCheck.png"]
  }

  const SUMMARY: Rel := ["data", "browsertime.summary-total.json"]

  predicate HasSummary(c: Codec, t: Folder) {
    var summary := Get(t, SUMMARY);
    summary.Some? && summary.value.File? && c.parses(summary.value.content)
  }

  /** Nothing when a required part is missing; otherwise the screenshot of the first page, if there. */
  ghost function Inspected(c: Codec, t: Folder): Option<Option<Node>> {
    if Get(t, ["pages"]) != Some(Dir) || PageDirs(t) == {} || !HasSummary(c, t) then None
    else Some(Get(t, ShotPath(Least(PageDirs(t)))))
  }

  /** The report in a result directory. */
  function DirOf(sl: Slice): ReportTree {
    if sl.dir.top == Some(Dir) && IsFolder(sl.dir.below) then sl.dir.below else map[]
  }

  // ----- the parts of a slice that belong to an object -----

  function ObjectOf(req: Request): Object
    requires IsRead(req)
  {
    if req.GetResult? then Zip else Shot
  }

  /** The request reads this object. */
  predicate Reads(req: Request, o: Object) {
    IsRead(req) && ObjectOf(req) == o
  }

  function Stored(sl: Slice, o: Object): Option<Bytes> {
    if o.Zip? then sl.zip else sl.shot
  }

  function Cached(sl: Slice, o: Object): Local {
    if o.Zip? then sl.cachedZip else sl.cachedShot
  }

  function Age(sl: Slice, o: Object): nat {
    if o.Zip? then sl.zipAge else sl.shotAge
  }

  function WithStored(sl: Slice, o: Object, v: Option<Bytes>): Slice {
    if o.Zip? then sl.(zip := v) else sl.(shot := v)
  }

  function WithCached(sl: Slice, o: Object, l: Local): Slice {
    if o.Zip? then sl.(cachedZip := l) else sl.(cachedShot := l)
  }

  /** The slice after the cached file was removed, if it can be. */
  function Dropped(sl: Slice, o: Object): Slice {
    if !Removable(Cached(sl, o)) then sl
    else if o.Zip? then sl.(cachedZip := GONE, zipAge := sl.zipAge + 1)
    else sl.(cachedShot := GONE, shotAge := sl.shotAge + 1)
  }

  // ----- one step -----

  function Goto(sl: Slice, th: Thread, stage: Stage): Progress {
    Progress(sl, th.(stage := stage))
  }

  function Answer(sl: Slice, th: Thread, stage: Stage, response: Response): Progress {
    Progress(sl, th.(stage := stage, response := response))
  }

  function FirstBytes(b: Bytes, n: nat): Bytes {
    if n < |b| then b[..n] else b
  }

  /** What a reader answers from the bytes it opened. */
  function Rendered(c: Codec, req: Request, b: Bytes): Response
    requires IsRead(req)
  {
    if req.GetShot? then Image(b)
    else match c.unpack(b)
      case None => NotFound
      case Some(archive) =>
        match Lookup(archive, req.path)
        case None => NotFound
        case Some(entry) => if req.faults.open then ServerError else Page(entry)
  }

  function Rank(stage: Stage): nat {
    match stage
    case Start => 11
    case Inspect => 10
    case UploadShot => 9
    case ClearTemp => 8
    case Pack => 7
    case UploadZip => 6
    case DeleteZip => 6
    case DeleteShot => 5
    case DropZip => 4
    case DropShot => 3
    case RemoveTemp => 2
    case RemoveDir => 1
    case Fetch => 4
    case Create => 3
    case Copy => 2
    case Read => 1
    case Done => 0
  }

  predicate Uploading(stage: Stage) {
    stage.Inspect? || stage.UploadShot? || stage.ClearTemp? || stage.Pack? || stage.UploadZip?
  }

  predicate Removing(stage: Stage) {
    stage in {DeleteZip, DeleteShot, DropZip, DropShot, RemoveTemp, RemoveDir}
  }

  predicate Reading(stage: Stage) {
    stage.Fetch? || stage.Create? || stage.Copy? || stage.Read?
  }

  /** Every step keeps the request and moves its stage closer to the end. */
  predicate Advances(th: Thread, p: Progress) {
    p.thread.req == th.req && Rank(p.thread.stage) < Rank(th.stage)
  }

  ghost function StartStep(sl: Slice, th: Thread): (p: Progress)
    requires th.stage.Start?
    ensures Advances(th, p)
  {
    var f := th.req.faults;
    if !ValidId(th.req.id) then Answer(sl, th, Done, BadRequest)
    else match th.req
      case Analyze(_, valid, ran, _) =>
        if !valid then Answer(sl, th, Done, BadRequest)
        else if ran.None? then Answer(sl, th, Done, ServerError)
        else Goto(sl.(dir := FolderOf(ran.value)), th, Inspect)
      case Delete(_, _) => Goto(sl, th, DeleteZip)
      case _ =>
        if Present(Cached(sl, ObjectOf(th.req))) then Goto(sl, th, Read)
        else if f.cacheDir then Answer(sl, th, Done, ServerError)
        else Goto(sl, th, Fetch)
  }

  /** What a download leaves in the file it created. */
  function Delivered(th: Thread): Bytes {
    if th.req.faults.torn.Some? then FirstBytes(th.body, th.req.faults.torn.value) else th.body
  }

  /** How much of a download others can see before it is complete. */
  function Visible(th: Thread): nat {
    if th.req.faults.early < |Delivered(th)| then th.req.faults.early else |Delivered(th)|
  }

  /** The bytes of b from n on, written at their place into a file; what was not there reads as zero. */
  function Overwritten(content: Bytes, n: nat, b: Bytes): Bytes
    requires n <= |b|
  {
    Padded(content, n)[..n] + b[n..] + if |b| < |content| then content[|b|..] else []
  }

  function Zeros(n: nat): Bytes {
    seq(n, i => 0)
  }

  function Padded(content: Bytes, n: nat): (padded: Bytes)
    ensures n <= |padded|
  {
    if n <= |content| then content else content + Zeros(n - |content|)
  }

  /** Completing what was begun gives the whole. */
  lemma OverwriteCompletes(b: Bytes, n: nat)
    requires n <= |b|
    ensures Overwritten(b[..n], n, b) == b
  {
  }

  /** Byte by byte: a gap reads as zero, and what lies beyond the bytes written stays. */
  lemma OverwrittenAt(content: Bytes, n: nat, b: Bytes, i: nat)
    requires n <= |b|
    ensures |Overwritten(content, n, b)| == if |content| < |b| then |b| else |content|
    ensures i < |Overwritten(content, n, b)| ==>
      Overwritten(content, n, b)[i] == if n <= i < |b| then b[i] else if i < |content| then content[i] else 0
  {
  }

  /** What is in the file once a download has written the rest. */
  function AfterCopy(th: Thread, l: Local): Bytes
    requires Content(l).Some?
  {
    Overwritten(Content(l).value, Visible(th), Delivered(th))
  }

  /** The file a download created is still the one at the path. */
  predicate Live(sl: Slice, th: Thread)
    requires IsRead(th.req)
  {
    th.handle == Age(sl, ObjectOf(th.req)) && Content(Cached(sl, ObjectOf(th.req))).Some?
  }

  /** What opening the cached file gives a reader. */
  function Opened(c: Codec, req: Request, l: Local): Response
    requires IsRead(req)
  {
    if req.faults.read || !Present(l) then NotFound
    else if Content(l).Some? then Rendered(c, req, Content(l).value)
    else if req.GetShot? then Image([]) else NotFound
  }

  function ReadStep(c: Codec, sl: Slice, th: Thread): (p: Progress)
    requires IsRead(th.req) && Reading(th.stage)
    ensures Advances(th, p)
  {
    var req, f, o := th.req, th.req.faults, ObjectOf(th.req);
    if th.stage.Fetch? then
      (if f.fetch || Stored(sl, o).None? then Answer(sl, th, Done, NotFound)
      else Progress(sl, th.(stage := Create, body := Stored(sl, o).value)))
    else if th.stage.Create? then
      (if f.create || !Tidy(Cached(sl, o)) then Answer(sl, th, Done, NotFound)
      else Progress(WithCached(sl, o, PlainFile(Delivered(th)[..Visible(th)])),
          th.(stage := Copy, handle := Age(sl, o))))
    else if th.stage.Copy? then
      var after := if Live(sl, th) then WithCached(sl, o, PlainFile(AfterCopy(th, Cached(sl, o)))) else sl;
      (if f.torn.Some? then Answer(after, th, Done, NotFound) else Goto(after, th, Read))
    else Answer(sl, th, Done, Opened(c, req, Cached(sl, o)))
  }

  ghost function InspectStep(c: Codec, sl: Slice, th: Thread): Progress {
    match Inspected(c, DirOf(sl))
    case None => Answer(sl, th, RemoveDir, ServerError)
    case Some(shot) => Progress(sl, th.(stage := UploadShot, shot := shot))
  }

  /** The analysis has a screenshot and stores it. */
  predicate StoresShot(th: Thread) {
    th.shot.Some? && th.shot.value.File? && !th.req.faults.uploadShot
  }

  predicate PackFails(sl: Slice, f: Faults) {
    f.pack.Some? || !Tidy(sl.temp) || sl.dir.top != Some(Dir)
  }

  /** What a failed packing leaves: nothing new if the zip could not be created. */
  function LeftByPack(c: Codec, sl: Slice, f: Faults): Local {
    if !Tidy(sl.temp) then sl.temp
    else if f.pack.None? then PlainFile(c.pack([]))
    else if f.pack.value.None? then sl.temp
    else PlainFile(f.pack.value.value)
  }

  predicate UploadFails(sl: Slice, f: Faults) {
    f.uploadZip || Content(sl.temp).None?
  }

  ghost function PackingStep(c: Codec, sl: Slice, th: Thread): (p: Progress)
    requires th.stage.Pack?
    ensures Advances(th, p)
  {
    var f := th.req.faults;
    if PackFails(sl, f) then Answer(sl.(temp := LeftByPack(c, sl, f)), th, RemoveDir, ServerError)
    else Goto(sl.(temp := PlainFile(c.pack(ArchiveOf(DirOf(sl))))), th, UploadZip)
  }

  /** The steps of an analysis up to the upload of its zip. */
  ghost function AnalyzeStep(c: Codec, sl: Slice, th: Thread): (p: Progress)
    requires Uploading(th.stage)
    ensures Advances(th, p)
  {
    if th.stage.Inspect? then InspectStep(c, sl, th)
    else if th.stage.UploadShot? then
      Goto(if StoresShot(th) then sl.(shot := Some(th.shot.value.content)) else sl, th, ClearTemp)
    else if th.stage.ClearTemp? then Goto(sl.(temp := Unlinked(sl.temp)), th, Pack)
    else if th.stage.Pack? then PackingStep(c, sl, th)
    else if UploadFails(sl, th.req.faults) then Answer(sl, th, RemoveTemp, ServerError)
    else Goto(sl.(zip := Content(sl.temp)), th, DropZip)
  }

  /** Deleting objects, dropping cache files, and the deferred clean-up of an analysis. */
  function RemoveStep(sl: Slice, th: Thread): (p: Progress)
    requires Removing(th.stage)
    ensures Advances(th, p)
  {
    var f := th.req.faults;
    if th.stage.DeleteZip? then Goto(if f.deleteZip then sl else sl.(zip := None), th, DeleteShot)
    else if th.stage.DeleteShot? then Goto(if f.deleteShot then sl else sl.(shot := None), th, DropZip)
    else if th.stage.DropZip? then Goto(if f.dropZip then sl else Dropped(sl, Zip), th, DropShot)
    else if th.stage.DropShot? then
      Answer(if f.dropShot then sl else Dropped(sl, Shot), th, if th.req.Analyze? then RemoveTemp else Done, Okay)
    else if th.stage.RemoveTemp? then Goto(sl.(temp := Unlinked(sl.temp)), th, RemoveDir)
    else Goto(sl.(dir := GONE), th, Done)
  }

  ghost function Step(c: Codec, sl: Slice, th: Thread): (p: Progress)
    ensures p.thread.req == th.req
    ensures if th.stage.Done? then p == Progress(sl, th) else Rank(p.thread.stage) < Rank(th.stage)
  {
    if th.stage.Done? then Progress(sl, th)
    else if th.stage.Start? then StartStep(sl, th)
    else if Uploading(th.stage) then AnalyzeStep(c, sl, th)
    else if Removing(th.stage) then RemoveStep(sl, th)
    else if IsRead(th.req) then ReadStep(c, sl, th)
    else Goto(sl, th, Done)
  }

  /** The rest of a request, run without interruption. */
  ghost function Finish(c: Codec, sl: Slice, th: Thread): Progress
    decreases Rank(th.stage)
  {
    if th.stage.Done? then Progress(sl, th)
    else var p := Step(c, sl, th); Finish(c, p.slice, p.thread)
  }

  ghost function Handle(c: Codec, sl: Slice, req: Request): Progress {
    Finish(c, sl, Begin(req))
  }

  /** A request whose id fails the check touches nothing. */
  lemma InvalidIgnored(c: Codec, sl: Slice, th: Thread)
    requires !ValidId(th.req.id) && (th.stage.Start? || th.stage.Done?)
    ensures Step(c, sl, th).slice == sl && Step(c, sl, th).thread.stage.Done?
  {
  }

  // ----- the cache agrees with the store -----

  /** Nothing is cached, or what is stored. */
  predicate Coherent(sl: Slice, o: Object) {
    var l := Cached(sl, o);
    Tidy(l) && (Present(l) ==> Content(l) == Stored(sl, o))
  }

  /** A request that may have changed the object and is going to drop the cached one. */
  predicate Owes(th: Thread, o: Object) {
    match o
    case Zip => th.stage.DeleteShot? || th.stage.DropZip?
    case Shot =>
      || th.stage.DropZip? || th.stage.DropShot?
      || ((th.stage.ClearTemp? || th.stage.Pack? || th.stage.UploadZip?) && StoresShot(th))
  }

  /** A download that is going to complete the cached file with what is stored. */
  predicate Fills(sl: Slice, th: Thread, o: Object) {
    Reads(th.req, o) && th.stage.Copy? && Live(sl, th) && Stored(sl, o) == Some(AfterCopy(th, Cached(sl, o)))
  }

  /** The request is going to put the cache right. */
  predicate Mends(sl: Slice, th: Thread, o: Object) {
    Owes(th, o) || Fills(sl, th, o)
  }

  /**
   * A download that creates the cached file to put into it what is not, or no longer,
   * stored; or that completes it and leaves something else there than what is stored.
   */
  predicate SavesOther(sl: Slice, th: Thread, o: Object) {
    && Reads(th.req, o)
    && ((th.stage.Create? && !th.req.faults.create && Tidy(Cached(sl, o)) && Stored(sl, o) != Some(Delivered(th)))
        || (th.stage.Copy? && Live(sl, th) && Stored(sl, o) != Some(AfterCopy(th, Cached(sl, o)))))
  }

  /** A cached file that is not removed, which is ignored. */
  predicate FailsToDrop(th: Thread, o: Object) {
    if o.Zip? then th.stage.DropZip? && th.req.faults.dropZip else th.stage.DropShot? && th.req.faults.dropShot
  }

  /** An analysis that has stored its screenshot and fails to store its zip. */
  predicate LosesShot(sl: Slice, th: Thread, o: Object) {
    && o.Shot? && StoresShot(th)
    && ((th.stage.Pack? && PackFails(sl, th.req.faults)) || (th.stage.UploadZip? && UploadFails(sl, th.req.faults)))
  }

  /** The only steps after which cache and store can disagree for good. */
  predicate Spoils(sl: Slice, th: Thread, o: Object) {
    SavesOther(sl, th, o) || FailsToDrop(th, o) || LosesShot(sl, th, o)
  }

  /** What such a step leaves as the cached file. */
  function FileAfter(sl: Slice, th: Thread, o: Object): Local {
    if Reads(th.req, o) && th.stage.Create? then PlainFile(Delivered(th)[..Visible(th)])
    else if Reads(th.req, o) && th.stage.Copy? && Live(sl, th) then PlainFile(AfterCopy(th, Cached(sl, o)))
    else Cached(sl, o)
  }

  /** Another request is going to drop this cached file, or to complete it to what is stored. */
  predicate Repairs(sl: Slice, file: Local, x: Thread, o: Object) {
    || Owes(x, o)
    || (Reads(x.req, o) && x.stage.Copy? && x.handle == Age(sl, o) && Content(file).Some?
        && Stored(sl, o) == Some(AfterCopy(x, file)))
  }

  lemma SpoilsLeaves(c: Codec, sl: Slice, th: Thread, o: Object)
    requires Spoils(sl, th, o) && Tidy(Cached(sl, o))
    ensures var p := Step(c, sl, th);
      Cached(p.slice, o) == FileAfter(sl, th, o) && Stored(p.slice, o) == Stored(sl, o) && Age(p.slice, o) == Age(sl, o)
  {
    if Uploading(th.stage) {
      AnalyzeMends(c, sl, th, o);
      LosingKeepsStore(c, sl, th, o);
    } else if Reading(th.stage) && IsRead(th.req) {
      ReadMends(c, sl, th, o);
      SavingLeaves(c, sl, th, o);
    }
  }

  lemma LosingKeepsStore(c: Codec, sl: Slice, th: Thread, o: Object)
    requires Uploading(th.stage) && LosesShot(sl, th, o)
    ensures Stored(AnalyzeStep(c, sl, th).slice, o) == Stored(sl, o)
  {
  }

  lemma SavingLeaves(c: Codec, sl: Slice, th: Thread, o: Object)
    requires IsRead(th.req) && Reading(th.stage) && SavesOther(sl, th, o)
    ensures Cached(ReadStep(c, sl, th).slice, o) == FileAfter(sl, th, o)
  {
  }

  lemma StartKeeps(sl: Slice, th: Thread, o: Object)
    requires th.stage.Start?
    ensures var p := StartStep(sl, th);
      Cached(p.slice, o) == Cached(sl, o) && Stored(p.slice, o) == Stored(sl, o) && Age(p.slice, o) == Age(sl, o)
  {
  }

  lemma ReadMends(c: Codec, sl: Slice, th: Thread, o: Object)
    requires IsRead(th.req) && Reading(th.stage) && Tidy(Cached(sl, o))
    ensures var p := ReadStep(c, sl, th);
      && Tidy(Cached(p.slice, o)) && Stored(p.slice, o) == Stored(sl, o) && Age(p.slice, o) == Age(sl, o)
      && (Present(Cached(sl, o)) ==> Present(Cached(p.slice, o)))
      && (Cached(p.slice, o) == Cached(sl, o) || Coherent(p.slice, o) || Fills(p.slice, p.thread, o) ||
          SavesOther(sl, th, o))
      && (Fills(sl, th, o) ==> Coherent(p.slice, o))
      && (SavesOther(sl, th, o) ==> !Fills(p.slice, p.thread, o))
  {
    OverwriteCompletes(Delivered(th), Visible(th));
  }

  lemma AnalyzeMends(c: Codec, sl: Slice, th: Thread, o: Object)
    requires Uploading(th.stage)
    ensures var p := AnalyzeStep(c, sl, th);
      && Cached(p.slice, o) == Cached(sl, o) && Age(p.slice, o) == Age(sl, o)
      && (Stored(p.slice, o) != Stored(sl, o) ==> Owes(p.thread, o))
      && (Owes(th, o) ==> Owes(p.thread, o) || LosesShot(sl, th, o))
      && (LosesShot(sl, th, o) ==> !Mends(p.slice, p.thread, o))
  {
  }

  lemma RemoveMends(sl: Slice, th: Thread, o: Object)
    requires Removing(th.stage) && Tidy(Cached(sl, o))
    ensures var p := RemoveStep(sl, th);
      && Tidy(Cached(p.slice, o))
      && (Stored(p.slice, o) != Stored(sl, o) ==> Owes(p.thread, o))
      && ((Cached(p.slice, o) == Cached(sl, o) && Age(p.slice, o) == Age(sl, o)) || Coherent(p.slice, o))
      && (Owes(th, o) ==> Owes(p.thread, o) || FailsToDrop(th, o) || Coherent(p.slice, o))
      && (FailsToDrop(th, o) ==> !Mends(p.slice, p.thread, o))
  {
  }

  /** After a step the cache is clean or will be put right, unless the step spoils it. */
  lemma StepMends(c: Codec, sl: Slice, th: Thread, o: Object)
    requires Tidy(Cached(sl, o))
    ensures var p := Step(c, sl, th);
      && Tidy(Cached(p.slice, o))
      && (Coherent(sl, o) || Mends(sl, th, o) ==>
          Coherent(p.slice, o) || Mends(p.slice, p.thread, o) || Spoils(sl, th, o))
      && (Spoils(sl, th, o) ==> !Mends(p.slice, p.thread, o))
  {
    if th.stage.Start? { StartKeeps(sl, th, o); }
    else if Uploading(th.stage) { AnalyzeMends(c, sl, th, o); }
    else if Removing(th.stage) { RemoveMends(sl, th, o); }
    else if Reading(th.stage) && IsRead(th.req) { ReadMends(c, sl, th, o); }
  }

  /** What one request is going to put right, the step of another does not prevent. */
  lemma OtherMends(c: Codec, sl: Slice, th: Thread, x: Thread, o: Object)
    requires Tidy(Cached(sl, o)) && Mends(sl, x, o)
    ensures var p := Step(c, sl, th);
      Mends(p.slice, x, o) || Coherent(p.slice, o) || Mends(p.slice, p.thread, o) || Spoils(sl, th, o)
  {
    if th.stage.Start? { StartKeeps(sl, th, o); }
    else if Uploading(th.stage) { AnalyzeMends(c, sl, th, o); }
    else if Removing(th.stage) { RemoveMends(sl, th, o); }
    else if Reading(th.stage) && IsRead(th.req) { ReadMends(c, sl, th, o); }
  }

  /** A cached file stays where it is, except in a step that drops it. */
  lemma PresentKept(c: Codec, sl: Slice, th: Thread, o: Object)
    requires Tidy(Cached(sl, o)) && Present(Cached(sl, o))
    requires !(if o.Zip? then th.stage.DropZip? else th.stage.DropShot?)
    ensures Present(Cached(Step(c, sl, th).slice, o))
  {
    if th.stage.Start? { StartKeeps(sl, th, o); }
    else if Uploading(th.stage) { AnalyzeMends(c, sl, th, o); }
    else if Removing(th.stage) { RemoveKeeps(sl, th, o); }
    else if Reading(th.stage) && IsRead(th.req) { ReadMends(c, sl, th, o); }
  }

  lemma RemoveKeeps(sl: Slice, th: Thread, o: Object)
    requires Removing(th.stage) && !(if o.Zip? then th.stage.DropZip? else th.stage.DropShot?)
    ensures Cached(RemoveStep(sl, th).slice, o) == Cached(sl, o)
  {
  }

  // ----- reading -----

  /** What a reader that goes straight to the store would answer. */
  function Direct(c: Codec, sl: Slice, req: Request): Response
    requires IsRead(req)
  {
    var stored := Stored(sl, ObjectOf(req));
    if stored.None? then NotFound else Rendered(c, req, stored.value)
  }

  predicate ReadsCleanly(req: Request) {
    IsRead(req) && !req.faults.cacheDir && !req.faults.fetch && !req.faults.create && !req.faults.read &&
        req.faults.torn.None?
  }

  /**
   * A reader that ends on a coherent cache answers from the store exactly if its file is
   * still there, or nothing is served.
   */
  lemma FinishedReadExactly(c: Codec, sl: Slice, th: Thread)
    requires ReadsCleanly(th.req) && ValidId(th.req.id) && (th.stage.Start? || Reading(th.stage))
    requires Tidy(Cached(sl, ObjectOf(th.req))) && (th.stage.Read? ==> Coherent(sl, ObjectOf(th.req)))
    ensures var p, o := Step(c, sl, th), ObjectOf(th.req);
      p.thread.stage.Done? ==>
        (p.thread.response == Direct(c, sl, th.req) <==>
          (th.stage.Read? ==> Present(Cached(sl, o)) || Direct(c, sl, th.req) == NotFound))
  {
  }

  // ----- complete requests -----

  /** What is left of a request once its outcome is settled: only the clean-up. */
  lemma FinishCleanup(c: Codec, sl: Slice, th: Thread)
    requires th.stage.RemoveTemp? || th.stage.RemoveDir?
    decreases Rank(th.stage)
    ensures Finish(c, sl, th)
         == Progress(sl.(temp := if th.stage.RemoveTemp? then Unlinked(sl.temp) else sl.temp, dir := GONE),
             th.(stage := Done))
  {
    if th.stage.RemoveTemp? {
      var p := Step(c, sl, th);
      FinishCleanup(c, p.slice, p.thread);
    } else {
      var p := Step(c, sl, th);
      assert Finish(c, p.slice, p.thread) == p;
    }
  }

  /** A cached file after an attempt to drop it. */
  function DroppedUnless(sl: Slice, fails: bool, o: Object): Slice {
    if fails then sl else Dropped(sl, o)
  }

  function BothDropped(sl: Slice, f: Faults): Slice {
    DroppedUnless(DroppedUnless(sl, f.dropZip, Zip), f.dropShot, Shot)
  }

  lemma FinishDrops(c: Codec, sl: Slice, th: Thread)
    requires th.stage.DropZip?
    ensures var p, after := Finish(c, sl, th), BothDropped(sl, th.req.faults);
      && p.thread.response == Okay
      && p.slice == if th.req.Analyze? then after.(temp := Unlinked(sl.temp), dir := GONE) else after
  {
    var p := Step(c, sl, th);
    var q := Step(c, p.slice, p.thread);
    assert Finish(c, sl, th) == Finish(c, p.slice, p.thread) == Finish(c, q.slice, q.thread);
    if th.req.Analyze? { FinishCleanup(c, q.slice, q.thread); }
  }

  /** The screenshot an analysis manages to upload. */
  ghost function Uploaded(c: Codec, req: Request): Option<Bytes>
    requires req.Analyze? && req.ran.Some? && Inspected(c, req.ran.value).Some?
  {
    var shot := Inspected(c, req.ran.value).value;
    if shot.Some? && shot.value.File? && !req.faults.uploadShot then Some(shot.value.content) else None
  }

  /** The analysis reaches its uploads. */
  ghost predicate Reportable(c: Codec, req: Request) {
    req.Analyze? && ValidId(req.id) && req.valid && req.ran.Some? && Inspected(c, req.ran.value).Some?
  }

  /** Its zip gets stored, if it gets that far. */
  predicate ZipStored(sl: Slice, f: Faults) {
    f.pack.None? && !f.uploadZip && sl.temp.below == map[]
  }

  /** What is at the temporary path after an analysis that got as far as packing. */
  function TempAfter(sl: Slice, f: Faults): Local {
    if sl.temp.below != map[] then sl.temp
    else if f.pack.Some? && f.pack.value.Some? then PlainFile(f.pack.value.value)
    else GONE
  }

  /** The store and the cache after an analysis that got as far as its uploads. */
  function Published(sl: Slice, f: Faults, packed: Bytes, shot: Option<Bytes>): Slice {
    var up := sl.(shot := if shot.Some? then shot else sl.shot);
    if ZipStored(sl, f) then BothDropped(up.(zip := Some(packed)), f) else up
  }

  /** What an analysis leaves that got as far as its uploads. */
  function Reported(sl: Slice, f: Faults, packed: Bytes, shot: Option<Bytes>): Slice {
    Published(sl, f, packed, shot).(temp := TempAfter(sl, f), dir := GONE)
  }

  function AnswerOf(sl: Slice, f: Faults): Response {
    if ZipStored(sl, f) then Okay else ServerError
  }

  /** What a complete analysis leaves, at every point it can stop. */
  lemma AnalyzeOutcome(c: Codec, sl: Slice, req: Request)
    requires req.Analyze?
    ensures var f, p := req.faults, Handle(c, sl, req);
      if !Reportable(c, req) then
        && p.slice == sl.(dir := if ValidId(req.id) && req.valid && req.ran.Some? then GONE else sl.dir)
        && p.thread.response == (if !ValidId(req.id) || !req.valid then BadRequest else ServerError)
      else
        && p.thread.response == AnswerOf(sl, f)
        && p.slice == Reported(sl, f, c.pack(ArchiveOf(req.ran.value)), Uploaded(c, req))
  {
    if !ValidId(req.id) || !req.valid || req.ran.None? {
      var p := Step(c, sl, Begin(req));
      assert Handle(c, sl, req) == Finish(c, p.slice, p.thread) == p;
    } else if Reportable(c, req) {
      FinishReportable(c, sl, req);
    } else {
      FinishUnreportable(c, sl, req);
    }
  }

  lemma FinishUnreportable(c: Codec, sl: Slice, req: Request)
    requires req.Analyze? && ValidId(req.id) && req.valid && req.ran.Some? && !Reportable(c, req)
    ensures var p := Handle(c, sl, req); p.slice == sl.(dir := GONE) && p.thread.response == ServerError
  {
    var p0 := Step(c, sl, Begin(req));
    var p1 := Step(c, p0.slice, p0.thread);
    assert Handle(c, sl, req) == Finish(c, p0.slice, p0.thread) == Finish(c, p1.slice, p1.thread);
    FinishCleanup(c, p1.slice, p1.thread);
  }

  lemma FinishReportable(c: Codec, sl: Slice, req: Request)
    requires Reportable(c, req)
    ensures var p := Handle(c, sl, req);
      && p.thread.response == AnswerOf(sl, req.faults)
      && p.slice == Reported(sl, req.faults, c.pack(ArchiveOf(req.ran.value)), Uploaded(c, req))
  {
    var p0 := Step(c, sl, Begin(req));
    assert DirOf(p0.slice) == req.ran.value;
    var p1 := Step(c, p0.slice, p0.thread);
    assert Handle(c, sl, req) == Finish(c, p0.slice, p0.thread) == Finish(c, p1.slice, p1.thread);
    FinishUploads(c, p1.slice, p1.thread, req.ran.value);
    ReportedFrom(sl, p0.slice, req.faults, c.pack(ArchiveOf(req.ran.value)), Uploaded(c, req));
  }

  /** The result directory as it was plays no part. */
  lemma ReportedFrom(sl: Slice, tl: Slice, f: Faults, packed: Bytes, shot: Option<Bytes>)
    requires tl == sl.(dir := tl.dir)
    ensures Reported(tl, f, packed, shot) == Reported(sl, f, packed, shot) && AnswerOf(tl, f) == AnswerOf(sl, f)
  {
  }

  lemma FinishUploads(c: Codec, sl: Slice, th: Thread, t: ReportTree)
    requires th.stage.UploadShot? && th.req.Analyze? && sl.dir == FolderOf(t)
    ensures var f, p := th.req.faults, Finish(c, sl, th);
      && p.thread.response == AnswerOf(sl, f)
      && p.slice == Reported(sl, f, c.pack(ArchiveOf(t)), if StoresShot(th) then Some(th.shot.value.content) else None)
  {
    var up := if StoresShot(th) then sl.(shot := Some(th.shot.value.content)) else sl;
    assert Step(c, sl, th) == Goto(up, th, ClearTemp);
    assert Finish(c, sl, th) == Finish(c, up, th.(stage := ClearTemp));
    FinishClearing(c, up, th.(stage := ClearTemp), t);
    ReportedShot(sl, th.req.faults, c.pack(ArchiveOf(t)), if StoresShot(th) then Some(th.shot.value.content) else None);
  }

  lemma ReportedShot(sl: Slice, f: Faults, packed: Bytes, shot: Option<Bytes>)
    ensures var up := sl.(shot := if shot.Some? then shot else sl.shot);
      Reported(up, f, packed, None) == Reported(sl, f, packed, shot) && AnswerOf(up, f) == AnswerOf(sl, f)
  {
  }

  lemma FinishClearing(c: Codec, sl: Slice, th: Thread, t: ReportTree)
    requires th.stage.ClearTemp? && th.req.Analyze? && sl.dir == FolderOf(t)
    ensures var f, p := th.req.faults, Finish(c, sl, th);
      p.thread.response == AnswerOf(sl, f) && p.slice == Reported(sl, f, c.pack(ArchiveOf(t)), None)
  {
    var f, cleared, at := th.req.faults, sl.(temp := Unlinked(sl.temp)), th.(stage := Pack);
    assert Step(c, sl, th) == Goto(cleared, th, Pack);
    assert Finish(c, sl, th) == Finish(c, cleared, at);
    ReportedCleared(sl, f, c.pack(ArchiveOf(t)));
    if PackFails(cleared, f) {
      FinishUnpacked(c, cleared, at, t);
    } else {
      FinishPacked(c, cleared, at, t);
    }
  }

  lemma ReportedCleared(sl: Slice, f: Faults, packed: Bytes)
    ensures var cleared := sl.(temp := Unlinked(sl.temp));
      Reported(cleared, f, packed, None) == Reported(sl, f, packed, None) && AnswerOf(cleared, f) == AnswerOf(sl, f)
  {
  }

  lemma FinishUnpacked(c: Codec, sl: Slice, th: Thread, t: ReportTree)
    requires th.stage.Pack? && th.req.Analyze? && sl.dir == FolderOf(t) && PackFails(sl, th.req.faults)
    requires sl.temp.below == map[] ==> sl.temp == GONE
    ensures var f, p := th.req.faults, Finish(c, sl, th);
      p.thread.response == AnswerOf(sl, f) && p.slice == Reported(sl, f, c.pack(ArchiveOf(t)), None)
  {
    var after := sl.(temp := LeftByPack(c, sl, th.req.faults));
    assert Step(c, sl, th) == Answer(after, th, RemoveDir, ServerError);
    FinishCleanup(c, after, th.(stage := RemoveDir, response := ServerError));
  }

  lemma FinishPacked(c: Codec, sl: Slice, th: Thread, t: ReportTree)
    requires th.stage.Pack? && th.req.Analyze? && sl.dir == FolderOf(t) && !PackFails(sl, th.req.faults)
    requires sl.temp.below == map[] ==> sl.temp == GONE
    ensures var f, p := th.req.faults, Finish(c, sl, th);
      p.thread.response == AnswerOf(sl, f) && p.slice == Reported(sl, f, c.pack(ArchiveOf(t)), None)
  {
    var packed := c.pack(ArchiveOf(t));
    var after := sl.(temp := PlainFile(packed));
    PackStep(c, sl, th, t);
    FinishUpload(c, sl, after, th.(stage := UploadZip), packed);
  }

  lemma PackStep(c: Codec, sl: Slice, th: Thread, t: ReportTree)
    requires th.stage.Pack? && sl.dir == FolderOf(t) && !PackFails(sl, th.req.faults)
    ensures Finish(c, sl, th) == Finish(c, sl.(temp := PlainFile(c.pack(ArchiveOf(t)))), th.(stage := UploadZip))
  {
    var p := Step(c, sl, th);
    DirOfFolder(sl, t);
    PackedStep(c, sl, th);
    assert Finish(c, sl, th) == Finish(c, p.slice, p.thread);
  }

  lemma DirOfFolder(sl: Slice, t: ReportTree)
    requires sl.dir == FolderOf(t)
    ensures DirOf(sl) == t
  {
  }

  lemma PackedStep(c: Codec, sl: Slice, th: Thread)
    requires th.stage.Pack? && !PackFails(sl, th.req.faults)
    ensures Step(c, sl, th) == Goto(sl.(temp := PlainFile(c.pack(ArchiveOf(DirOf(sl))))), th, UploadZip)
  {
  }

  lemma FinishUpload(c: Codec, sl: Slice, after: Slice, th: Thread, packed: Bytes)
    requires th.stage.UploadZip? && th.req.Analyze? && after == sl.(temp := PlainFile(packed))
    requires sl.temp == GONE && th.req.faults.pack.None?
    ensures var f, p := th.req.faults, Finish(c, after, th);
      p.thread.response == AnswerOf(sl, f) && p.slice == Reported(sl, f, packed, None)
  {
    if th.req.faults.uploadZip {
      assert Step(c, after, th) == Answer(after, th, RemoveTemp, ServerError);
      FinishCleanup(c, after, th.(stage := RemoveTemp, response := ServerError));
    } else {
      var stored := after.(zip := Some(packed));
      assert Step(c, after, th) == Goto(stored, th, DropZip);
      FinishDrops(c, stored, th.(stage := DropZip));
      DropsElsewhere(sl.(zip := Some(packed)), stored, th.req.faults);
    }
  }

  /** Dropping cached files neither reads nor changes the other local paths. */
  lemma DropsElsewhere(sl: Slice, tl: Slice, f: Faults)
    requires tl == sl.(temp := tl.temp, dir := tl.dir)
    ensures BothDropped(tl, f) == BothDropped(sl, f).(temp := tl.temp, dir := tl.dir)
  {
  }

  // ----- what is refused and what is stored, on the id and on the report -----

  lemma DottedExactly(id: string)
    ensures HasDots(id) <==> exists a: string, b: string :: id == a + ".." + b
  {
    if HasDots(id) {
      var i :| 0 <= i < |id| - 1 && id[i] == '.' && id[i + 1] == '.';
      assert id == id[..i] + ".." + id[i + 2..];
    }
    forall a: string, b: string | id == a + ".." + b ensures HasDots(id) {
      assert id[|a|] == ".."[0] && id[|a| + 1] == ".."[1];
    }
  }

  /** A request is refused as malformed for its id alone, or for the body of an analysis. */
  lemma RefusedExactly(c: Codec, sl: Slice, req: Request)
    ensures Handle(c, sl, req).thread.response == BadRequest <==>
      || req.id == "" || '/' in req.id || '\\' in req.id
      || (exists a: string, b: string :: req.id == a + ".." + b)
      || (req.Analyze? && !req.valid)
  {
    DottedExactly(req.id);
    match req
    case Analyze(_, _, _, _) => AnalyzeOutcome(c, sl, req);
    case Delete(_, _) => DeleteOutcome(c, sl, req);
    case _ => ReadOutcome(c, sl, req);
  }

  /** The report has what the handler asks for, and its first page is this one. */
  predicate FirstPageOf(c: Codec, t: ReportTree, page: string) {
    && Get(t, ["pages"]) == Some(Dir) && Get(t, ["pages", page]) == Some(Dir)
    && (forall k | k in t && |k| == 2 && k[0] == "pages" && t[k].Dir? :: k[1] == page || NameLess(page, k[1]))
    && var summary := Get(t, ["data", "browsertime.summary-total.json"]);
       summary.Some? && summary.value.File? && c.parses(summary.value.content)
  }

  lemma PageDirsAre(t: ReportTree, n: string)
    ensures n in PageDirs(t) <==> Get(t, ["pages", n]) == Some(Dir)
  {
    assert ["pages"] + [n] == ["pages", n];
    if Get(t, ["pages", n]) == Some(Dir) {
      assert ["pages", n][..1] == ["pages"] && ["pages", n][1] == n;
    }
  }

  lemma InspectedExactly(c: Codec, t: ReportTree, page: string)
    ensures FirstPageOf(c, t, page) ==>
      Inspected(c, t) == Some(Get(t, ["pages", page, "data", "screenshots", "1", "afterPageCompleteCheck.png"]))
    ensures Inspected(c, t).Some? ==> exists first :: FirstPageOf(c, t, first)
  {
    forall n ensures n in PageDirs(t) <==> Get(t, ["pages", n]) == Some(Dir) { PageDirsAre(t, n); }
    if FirstPageOf(c, t, page) {
      forall n | n in PageDirs(t) && n != page ensures NameLess(page, n) { assert ["pages", n] in t; }
      LeastUnique(PageDirs(t), Least(PageDirs(t)), page);
    }
    if Inspected(c, t).Some? {
      var first := Least(PageDirs(t));
      forall k | k in t && |k| == 2 && k[0] == "pages" && t[k].Dir? ensures k[1] == first || NameLess(first, k[1]) {
        assert k == ["pages", k[1]];
      }
      assert FirstPageOf(c, t, first);
    }
  }

  /** An analysis is answered with its data for reports that have a first page, and only then changes the stored zip. */
  lemma AnalyzedExactly(c: Codec, sl: Slice, req: Request)
    requires req.Analyze?
    ensures var f, p := req.faults, Handle(c, sl, req);
      && (p.thread.response == Okay <==>
          && ValidId(req.id) && req.valid && req.ran.Some? && (exists page :: FirstPageOf(c, req.ran.value, page))
          && f.pack.None? && !f.uploadZip && sl.temp.below == map[])
      && p.slice.zip == if p.thread.response == Okay then Some(c.pack(ArchiveOf(req.ran.value))) else sl.zip
  {
    AnalyzeOutcome(c, sl, req);
    if req.ran.Some? { HasFirstPage(c, req.ran.value); }
  }

  lemma HasFirstPage(c: Codec, t: ReportTree)
    ensures Inspected(c, t).Some? <==> exists page :: FirstPageOf(c, t, page)
  {
    InspectedExactly(c, t, "");
    forall page | FirstPageOf(c, t, page) ensures Inspected(c, t).Some? { InspectedExactly(c, t, page); }
  }

  /** The stored screenshot becomes that of the first page, if the report has one and the upload succeeds. */
  lemma ScreenshotStored(c: Codec, sl: Slice, req: Request, page: string)
    requires req.Analyze? && ValidId(req.id) && req.valid && req.ran.Some? && FirstPageOf(c, req.ran.value, page)
    ensures var shot := Get(req.ran.value, ["pages", page, "data", "screenshots", "1", "afterPageCompleteCheck.png"]);
      Handle(c, sl, req).slice.shot
        == if shot.Some? && shot.value.File? && !req.faults.uploadShot then Some(shot.value.content) else sl.shot
  {
    InspectedExactly(c, req.ran.value, page);
    StoredShot(c, sl, req);
  }

  lemma StoredShot(c: Codec, sl: Slice, req: Request)
    requires Reportable(c, req)
    ensures Handle(c, sl, req).slice.shot == if Uploaded(c, req).Some? then Uploaded(c, req) else sl.shot
  {
    AnalyzeOutcome(c, sl, req);
    ShotAfter(sl, req.faults, c.pack(ArchiveOf(req.ran.value)), Uploaded(c, req));
  }

  lemma ShotAfter(sl: Slice, f: Faults, packed: Bytes, shot: Option<Bytes>)
    ensures Reported(sl, f, packed, shot).shot == if shot.Some? then shot else sl.shot
  {
  }

  lemma DeleteOutcome(c: Codec, sl: Slice, req: Request)
    requires req.Delete?
    ensures var f, p := req.faults, Handle(c, sl, req);
      if !ValidId(req.id) then p.slice == sl && p.thread.response == BadRequest
      else
        && p.thread.response == Okay
        && p.slice == BothDropped(sl.(zip := if f.deleteZip then sl.zip else None,
                                      shot := if f.deleteShot then sl.shot else None), f)
  {
    var p1 := Step(c, sl, Begin(req));
    assert Handle(c, sl, req) == Finish(c, p1.slice, p1.thread);
    if ValidId(req.id) {
      var p2 := Step(c, p1.slice, p1.thread);
      var p3 := Step(c, p2.slice, p2.thread);
      assert Finish(c, p1.slice, p1.thread) == Finish(c, p2.slice, p2.thread);
      assert Finish(c, p2.slice, p2.thread) == Finish(c, p3.slice, p3.thread);
      FinishDrops(c, p3.slice, p3.thread);
    }
  }

  /** The download happens: nothing cached, and the object arrives. */
  predicate Downloads(sl: Slice, req: Request)
    requires IsRead(req)
  {
    var f, o := req.faults, ObjectOf(req);
    && ValidId(req.id) && !Present(Cached(sl, o)) && Tidy(Cached(sl, o))
    && !f.cacheDir && !f.fetch && Stored(sl, o).Some? && !f.create
  }

  /** What a download leaves when it is not disturbed. */
  function Downloaded(req: Request, b: Bytes): Bytes {
    if req.faults.torn.Some? && req.faults.torn.value < |b| then b[..req.faults.torn.value] else b
  }

  lemma ReadOutcome(c: Codec, sl: Slice, req: Request)
    requires IsRead(req)
    ensures var f, p, o := req.faults, Handle(c, sl, req), ObjectOf(req);
      && p.slice == (if Downloads(sl, req) then WithCached(sl, o, PlainFile(Downloaded(req, Stored(sl, o).value)))
          else sl)
      && p.thread.response ==
           (if !ValidId(req.id) then BadRequest
            else if Present(Cached(sl, o)) then Opened(c, req, Cached(sl, o))
            else if f.cacheDir then ServerError
            else if !Downloads(sl, req) || f.torn.Some? || f.read then NotFound
            else Rendered(c, req, Stored(sl, o).value))
  {
    var p1 := Step(c, sl, Begin(req));
    assert Handle(c, sl, req) == Finish(c, p1.slice, p1.thread);
    if p1.thread.stage.Fetch? {
      var p2 := Step(c, p1.slice, p1.thread);
      assert Finish(c, p1.slice, p1.thread) == Finish(c, p2.slice, p2.thread);
      if p2.thread.stage.Create? { FinishDownload(c, p2.slice, p2.thread); }
    } else if p1.thread.stage.Read? {
      assert Finish(c, p1.slice, p1.thread) == Step(c, p1.slice, p1.thread);
    }
  }

  /**
   * Undisturbed, from a cache that agrees with the store: nothing stored, a zip that does not
   * open and a path it does not hold are not found; an entry that does not open is an error.
   */
  lemma CleanReadAnswers(c: Codec, sl: Slice, req: Request)
    requires ReadsCleanly(req) && ValidId(req.id) && Coherent(sl, ObjectOf(req))
    requires Stored(sl, ObjectOf(req)).None? ==> !Present(Cached(sl, ObjectOf(req)))
    ensures var response := Handle(c, sl, req).thread.response;
      if req.GetShot? then
        if sl.shot.None? then response == NotFound else response == Image(sl.shot.value)
      else if sl.zip.None? || c.unpack(sl.zip.value).None? then response == NotFound
      else
        match Lookup(c.unpack(sl.zip.value).value, req.path)
        case None => response == NotFound
        case Some(entry) => response == if req.faults.open then ServerError else Page(entry)
  {
    ReadOutcome(c, sl, req);
  }

  /** A directory in the place of a cached file opens: as an empty image, and as no zip. */
  lemma DirectoryInPlace(c: Codec, sl: Slice, req: Request)
    requires IsRead(req) && ValidId(req.id) && Cached(sl, ObjectOf(req)).top == Some(Dir) && !req.faults.read
    ensures Handle(c, sl, req).thread.response == if req.GetShot? then Image([]) else NotFound
  {
    ReadOutcome(c, sl, req);
  }

  lemma FinishDownload(c: Codec, sl: Slice, th: Thread)
    requires IsRead(th.req) && th.stage.Create?
    ensures var f, p, o := th.req.faults, Finish(c, sl, th), ObjectOf(th.req);
      && p.slice == (if !f.create && Tidy(Cached(sl, o)) then WithCached(sl, o, PlainFile(Delivered(th))) else sl)
      && p.thread.response == (if f.create || !Tidy(Cached(sl, o)) || f.torn.Some? || f.read then NotFound
                               else Rendered(c, th.req, th.body))
  {
    var p := Step(c, sl, th);
    assert Finish(c, sl, th) == Finish(c, p.slice, p.thread);
    if p.thread.stage.Copy? {
      OverwriteCompletes(Delivered(th), Visible(th));
      FinishCopy(c, p.slice, p.thread);
    }
  }

  lemma FinishCopy(c: Codec, sl: Slice, th: Thread)
    requires IsRead(th.req) && th.stage.Copy? && Live(sl, th)
    requires AfterCopy(th, Cached(sl, ObjectOf(th.req))) == Delivered(th)
    ensures var f, p := th.req.faults, Finish(c, sl, th);
      && p.slice == WithCached(sl, ObjectOf(th.req), PlainFile(Delivered(th)))
      && p.thread.response == (if f.torn.Some? || f.read then NotFound else Rendered(c, th.req, th.body))
  {
    var p := Step(c, sl, th);
    assert Finish(c, sl, th) == Finish(c, p.slice, p.thread);
    if p.thread.stage.Read? {
      assert Finish(c, p.slice, p.thread) == Step(c, p.slice, p.thread);
    }
  }

  // ----- exactly which requests separate the cache from the store -----

  /** A download that breaks before the last byte leaves a truncated cache file. */
  predicate TearsCache(sl: Slice, req: Request)
    requires IsRead(req)
  {
    Downloads(sl, req) && req.faults.torn.Some? && req.faults.torn.value < |Stored(sl, ObjectOf(req)).value|
  }

  ghost predicate SpoilsAlone(c: Codec, sl: Slice, req: Request, o: Object) {
    match req
    case Delete(id, f) =>
      && ValidId(id) && Present(Cached(sl, o))
      && if o.Zip? then f.dropZip && !f.deleteZip else f.dropShot && !f.deleteShot
    case Analyze(_, _, ran, f) =>
      && Reportable(c, req) && Present(Cached(sl, o))
      && if o.Zip? then
           ZipStored(sl, f) && f.dropZip && Content(sl.cachedZip) != Some(c.pack(ArchiveOf(ran.value)))
         else
           Uploaded(c, req).Some? && Content(sl.cachedShot) != Uploaded(c, req) && (!ZipStored(sl, f) || f.dropShot)
    case _ => Reads(req, o) && TearsCache(sl, req)
  }

  /**
   * A request handled alone from a clean cache leaves it clean, unless it is one of the
   * above: a torn download, an ignored failure to drop, a screenshot without its zip.
   */
  lemma CoherentExactly(c: Codec, sl: Slice, req: Request, o: Object)
    requires Coherent(sl, o)
    ensures Coherent(Handle(c, sl, req).slice, o) <==> !SpoilsAlone(c, sl, req, o)
  {
    match req
    case Analyze(_, _, _, _) =>
      AnalyzeOutcome(c, sl, req);
      if Reportable(c, req) {
        PublishedCached(sl, req.faults, c.pack(ArchiveOf(req.ran.value)), Uploaded(c, req), o);
      }
    case Delete(_, _) => DeleteCached(c, sl, req, o);
    case _ => ReadCached(c, sl, req, o);
  }

  lemma DeleteCached(c: Codec, sl: Slice, req: Request, o: Object)
    requires req.Delete? && Coherent(sl, o)
    ensures Coherent(Handle(c, sl, req).slice, o) <==> !SpoilsAlone(c, sl, req, o)
  {
    DeleteOutcome(c, sl, req);
    DropsCached(sl.(zip := if req.faults.deleteZip then sl.zip else None,
                    shot := if req.faults.deleteShot then sl.shot else None), req.faults, o);
  }

  lemma ReadCached(c: Codec, sl: Slice, req: Request, o: Object)
    requires IsRead(req) && Coherent(sl, o)
    ensures Coherent(Handle(c, sl, req).slice, o) <==> !SpoilsAlone(c, sl, req, o)
  {
    ReadOutcome(c, sl, req);
    Torn(Stored(sl, ObjectOf(req)), req.faults.torn);
  }

  lemma DropsCached(sl: Slice, f: Faults, o: Object)
    requires Tidy(Cached(sl, o))
    ensures Stored(BothDropped(sl, f), o) == Stored(sl, o)
    ensures Cached(BothDropped(sl, f), o) == if (if o.Zip? then f.dropZip else f.dropShot) then Cached(sl, o) else GONE
  {
  }

  lemma PublishedCached(sl: Slice, f: Faults, packed: Bytes, shot: Option<Bytes>, o: Object)
    requires Tidy(Cached(sl, o))
    ensures var u := Reported(sl, f, packed, shot);
      && Stored(u, o) == (if o.Zip? then (if ZipStored(sl, f) then Some(packed) else sl.zip)
                          else if shot.Some? then shot else sl.shot)
      && Cached(u, o) == (if ZipStored(sl, f) && !(if o.Zip? then f.dropZip else f.dropShot) then GONE
          else Cached(sl, o))
  {
    var up := sl.(shot := if shot.Some? then shot else sl.shot);
    DropsCached(up.(zip := Some(packed)), f, o);
  }

  lemma Torn(source: Option<Bytes>, torn: Option<nat>)
    ensures source.Some? && torn.Some? ==>
      (FirstBytes(source.value, torn.value) == source.value <==> torn.value >= |source.value|)
  {
    if source.Some? && torn.Some? && torn.value < |source.value| {
      assert |source.value[..torn.value]| < |source.value|;
    }
  }
}
