/**
 * The handlers as the server runs them: HandleAnalyze, HandleGetResult,
 * HandleDeleteResult and HandleGetScreenshot over an object store and a local disk.
 * Each is proved to do, to the state it shares with all other ids, exactly what the
 * step machine of its request does to one id's slice.
 */
module Server {
  import opened Wrappers
  import opened Paths
  import opened Extract
  import opened ZipDir
  import opened Report
  import opened Keys
  import opened Footprints
  import opened Requests
  import opened Interleaving
  import opened Places

  // ----- single changes of the shared state, seen from one place -----

  /** The files of an id. */
  datatype Spot = Temporary | CacheOf(o: Object)

  function PathAt(p: Place, spot: Spot): Path {
    match spot
    case Temporary => p.local.temp
    case CacheOf(Zip) => p.local.cachedZip
    case CacheOf(Shot) => p.local.cachedShot
  }

  function Seen(sl: Slice, spot: Spot): Local {
    if spot.Temporary? then sl.temp else Cached(sl, spot.o)
  }

  function With(sl: Slice, spot: Spot, l: Local): Slice {
    if spot.Temporary? then sl.(temp := l) else WithCached(sl, spot.o, l)
  }

  function KeyOf(p: Place, o: Object): string {
    if o.Zip? then p.zip else p.shot
  }

  /** One more removal at a path. */
  function Bumped(m: map<Path, Positive>, k: Path): map<Path, Positive> {
    Keyed(m, k, Counted(RemovalsAt(m, k) + 1))
  }

  function Older(sl: Slice, o: Object): Slice {
    if o.Zip? then sl.(zipAge := sl.zipAge + 1) else sl.(shotAge := sl.shotAge + 1)
  }

  // What a state into which a slice of the id was put looks like from its place, and what
  // single changes there make of the slice.

  ghost predicate StoreSeen(m: Memory<World>, p: Place, id: string, w: World, sl: Slice, o: Object) {
    Get(m.put(w, id, sl).store, KeyOf(p, o)) == Stored(sl, o)
  }

  ghost predicate FileSeen(m: Memory<World>, p: Place, id: string, w: World, sl: Slice, spot: Spot) {
    LocalAt(m.put(w, id, sl).disk, PathAt(p, spot)) == Seen(sl, spot)
  }

  ghost predicate StoreWritten(
      m: Memory<World>, p: Place, id: string, w: World, sl: Slice, o: Object, v: Option<Bytes>) {
    var u := m.put(w, id, sl);
    World(Keyed(u.store, KeyOf(p, o), v), u.disk, u.removals) == m.put(w, id, WithStored(sl, o, v))
  }

  ghost predicate FileWritten(m: Memory<World>, p: Place, id: string, w: World, sl: Slice, spot: Spot, l: Local) {
    var u := m.put(w, id, sl);
    World(u.store, Graft(u.disk, PathAt(p, spot), l), u.removals) == m.put(w, id, With(sl, spot, l))
  }

  ghost predicate DirWritten(m: Memory<World>, p: Place, id: string, w: World, sl: Slice, l: Local) {
    var u := m.put(w, id, sl);
    World(u.store, Graft(u.disk, p.local.dir, l), u.removals) == m.put(w, id, sl.(dir := l))
  }

  ghost predicate RemovalSeen(m: Memory<World>, p: Place, id: string, w: World, sl: Slice, o: Object) {
    var u := m.put(w, id, sl);
    World(u.store, u.disk, Bumped(u.removals, PathAt(p, CacheOf(o)))) == m.put(w, id, Older(sl, o))
  }

  ghost predicate ActsAt(m: Memory<World>, p: Place, id: string) {
    && (forall w, sl, o :: StoreSeen(m, p, id, w, sl, o))
    && (forall w, sl, spot :: FileSeen(m, p, id, w, sl, spot))
    && (forall w, sl, o, v :: StoreWritten(m, p, id, w, sl, o, v))
    && (forall w, sl, spot, l :: FileWritten(m, p, id, w, sl, spot, l))
    && (forall w, sl, l :: DirWritten(m, p, id, w, sl, l))
    && (forall w, sl, o :: RemovalSeen(m, p, id, w, sl, o))
  }

  /** u is w, but for the slice of p, which is now sl. */
  ghost predicate Became(u: World, w: World, p: Place, sl: Slice) {
    SliceAt(u, p) == sl && SameElsewhere(u, w, p)
  }

  lemma PutBecame(w: World, p: Place, sl: Slice)
    requires Distinct(p)
    ensures Became(PutAt(w, p, sl), w, p, sl)
  {
    PutSame(w, p, sl);
    forall k | !Owns(p.local, k) ensures Get(PutLocals(w.disk, p.local, sl), k) == Get(w.disk, k) {
      PutLocalsGet(w.disk, p.local, sl, k);
    }
    TwoElsewhere(w.store, p.zip, sl.zip, p.shot, sl.shot);
    TwoElsewhere(w.removals, p.local.cachedZip, Counted(sl.zipAge), p.local.cachedShot, Counted(sl.shotAge));
  }

  lemma TwoElsewhere<K(!new), V>(m: map<K, V>, k: K, v: Option<V>, l: K, w: Option<V>)
    ensures AlikeBut(Two(m, k, v, l, w), m, k, l)
  {
    forall j | j != k && j != l ensures Get(Two(m, k, v, l, w), j) == Get(m, j) {
      TwoGet(m, k, v, l, w, j);
    }
  }

  lemma KeyedElsewhere<K(!new), V>(n: map<K, V>, m: map<K, V>, k: K, v: Option<V>, l: K, at: K)
    requires AlikeBut(n, m, k, l) && (at == k || at == l)
    ensures AlikeBut(Keyed(n, at, v), m, k, l)
  {
    forall j | j != k && j != l ensures Get(Keyed(n, at, v), j) == Get(m, j) {
      KeyedGet(n, at, v, j);
    }
  }

  lemma StoreSlice(u: World, p: Place, o: Object, v: Option<Bytes>)
    requires Distinct(p)
    ensures SliceAt(World(Keyed(u.store, KeyOf(p, o), v), u.disk, u.removals), p) == WithStored(SliceAt(u, p), o, v)
  {
    KeyedGet(u.store, KeyOf(p, o), v, p.zip);
    KeyedGet(u.store, KeyOf(p, o), v, p.shot);
  }

  lemma PutStored(w: World, p: Place, sl: Slice, o: Object, v: Option<Bytes>)
    requires Distinct(p)
    ensures var u := PutAt(w, p, sl);
      World(Keyed(u.store, KeyOf(p, o), v), u.disk, u.removals) == PutAt(w, p, WithStored(sl, o, v))
  {
    var u := PutAt(w, p, sl);
    PutBecame(w, p, sl);
    StoreSlice(u, p, o, v);
    KeyedElsewhere(u.store, w.store, p.zip, v, p.shot, KeyOf(p, o));
    PutIs(World(Keyed(u.store, KeyOf(p, o), v), u.disk, u.removals), w, p, WithStored(sl, o, v));
  }

  lemma PutFile(w: World, p: Place, sl: Slice, spot: Spot, l: Local)
    requires Distinct(p)
    ensures var u := PutAt(w, p, sl);
      World(u.store, Graft(u.disk, PathAt(p, spot), l), u.removals) == PutAt(w, p, With(sl, spot, l))
  {
    var u := PutAt(w, p, sl);
    PutBecame(w, p, sl);
    OwnPathsDiffer(p.local);
    GraftSlice(u, p, PathAt(p, spot), l);
    PutIs(World(u.store, Graft(u.disk, PathAt(p, spot), l), u.removals), w, p, With(sl, spot, l));
  }

  lemma PutDir(w: World, p: Place, sl: Slice, l: Local)
    requires Distinct(p)
    ensures var u := PutAt(w, p, sl);
      World(u.store, Graft(u.disk, p.local.dir, l), u.removals) == PutAt(w, p, sl.(dir := l))
  {
    var u := PutAt(w, p, sl);
    PutBecame(w, p, sl);
    OwnPathsDiffer(p.local);
    GraftSlice(u, p, p.local.dir, l);
    PutIs(World(u.store, Graft(u.disk, p.local.dir, l), u.removals), w, p, sl.(dir := l));
  }

  lemma BumpedElsewhere(n: map<Path, Positive>, m: map<Path, Positive>, k: Path, l: Path, at: Path)
    requires AlikeBut(n, m, k, l) && (at == k || at == l)
    ensures AlikeBut(Bumped(n, at), m, k, l)
  {
    KeyedElsewhere(n, m, k, Counted(RemovalsAt(n, at) + 1), l, at);
  }

  lemma BumpedCount(m: map<Path, Positive>, k: Path, j: Path)
    ensures RemovalsAt(Bumped(m, k), j) == if j == k then RemovalsAt(m, k) + 1 else RemovalsAt(m, j)
  {
    KeyedGet(m, k, Counted(RemovalsAt(m, k) + 1), j);
    CountGet(m, j);
    CountIs(Bumped(m, k), j, if j == k then RemovalsAt(m, k) + 1 else RemovalsAt(m, j));
  }

  lemma AgedSlice(u: World, removals: map<Path, Positive>, p: Place)
    ensures SliceAt(World(u.store, u.disk, removals), p)
         == SliceAt(u, p).(zipAge := RemovalsAt(removals, p.local.cachedZip),
             shotAge := RemovalsAt(removals, p.local.cachedShot))
  {
  }

  lemma AgedIsOlder(sl: Slice, tl: Slice, zipAge: nat, shotAge: nat, o: Object)
    requires tl == sl.(zipAge := zipAge, shotAge := shotAge)
    requires zipAge == sl.zipAge + (if o.Zip? then 1 else 0) && shotAge == sl.shotAge + (if o.Zip? then 0 else 1)
    ensures tl == Older(sl, o)
  {
  }

  lemma BumpedCounts(m: map<Path, Positive>, p: Place, o: Object)
    requires p.local.cachedZip != p.local.cachedShot
    ensures var n := Bumped(m, PathAt(p, CacheOf(o)));
      && RemovalsAt(n, p.local.cachedZip) == RemovalsAt(m, p.local.cachedZip) + (if o.Zip? then 1 else 0)
      && RemovalsAt(n, p.local.cachedShot) == RemovalsAt(m, p.local.cachedShot) + (if o.Zip? then 0 else 1)
  {
    BumpedCount(m, PathAt(p, CacheOf(o)), p.local.cachedZip);
    BumpedCount(m, PathAt(p, CacheOf(o)), p.local.cachedShot);
  }

  lemma BumpedSlice(u: World, p: Place, o: Object)
    requires p.local.cachedZip != p.local.cachedShot
    ensures SliceAt(World(u.store, u.disk, Bumped(u.removals, PathAt(p, CacheOf(o)))), p) == Older(SliceAt(u, p), o)
  {
    var bumped := Bumped(u.removals, PathAt(p, CacheOf(o)));
    BumpedCounts(u.removals, p, o);
    AgedSlice(u, bumped, p);
    AgedIsOlder(SliceAt(u, p), SliceAt(World(u.store, u.disk, bumped), p), RemovalsAt(bumped, p.local.cachedZip),
                RemovalsAt(bumped, p.local.cachedShot), o);
  }

  lemma OlderIsPut(u: World, v: World, w: World, p: Place, sl: Slice, o: Object)
    requires Distinct(p) && Became(u, w, p, sl)
    requires v.store == u.store && v.disk == u.disk && SliceAt(v, p) == Older(sl, o)
    requires AlikeBut(v.removals, w.removals, p.local.cachedZip, p.local.cachedShot)
    ensures v == PutAt(w, p, Older(sl, o))
  {
    PutIs(v, w, p, Older(sl, o));
  }

  lemma PutOlder(w: World, p: Place, sl: Slice, o: Object)
    requires Distinct(p)
    ensures var u := PutAt(w, p, sl);
      World(u.store, u.disk, Bumped(u.removals, PathAt(p, CacheOf(o)))) == PutAt(w, p, Older(sl, o))
  {
    var u, k := PutAt(w, p, sl), PathAt(p, CacheOf(o));
    PutBecame(w, p, sl);
    OwnPathsDiffer(p.local);
    BumpedSlice(u, p, o);
    BumpedElsewhere(u.removals, w.removals, p.local.cachedZip, p.local.cachedShot, k);
    var bumped := Bumped(u.removals, k);
    OlderIsPut(u, World(u.store, u.disk, bumped), w, p, sl, o);
  }

  lemma SliceStored(u: World, p: Place, sl: Slice, o: Object)
    requires SliceAt(u, p) == sl
    ensures Get(u.store, KeyOf(p, o)) == Stored(sl, o)
  {
  }

  lemma SliceSeen(u: World, p: Place, sl: Slice, spot: Spot)
    requires SliceAt(u, p) == sl
    ensures LocalAt(u.disk, PathAt(p, spot)) == Seen(sl, spot)
  {
    match spot
    case Temporary =>
    case CacheOf(Zip) =>
    case CacheOf(Shot) =>
  }

  lemma PlaceStoreSeen(pl: IdPlaces, id: string, w: World, sl: Slice, o: Object)
    requires Distinct(pl(id))
    ensures StoreSeen(MemoryUnder(pl), pl(id), id, w, sl, o)
  {
    PutSame(w, pl(id), sl);
    SliceStored(PutAt(w, pl(id), sl), pl(id), sl, o);
  }

  lemma PlaceFileSeen(pl: IdPlaces, id: string, w: World, sl: Slice, spot: Spot)
    requires Distinct(pl(id))
    ensures FileSeen(MemoryUnder(pl), pl(id), id, w, sl, spot)
  {
    PutSame(w, pl(id), sl);
    SliceSeen(PutAt(w, pl(id), sl), pl(id), sl, spot);
  }

  lemma PlaceStoreWritten(pl: IdPlaces, id: string, w: World, sl: Slice, o: Object, v: Option<Bytes>)
    requires Distinct(pl(id))
    ensures StoreWritten(MemoryUnder(pl), pl(id), id, w, sl, o, v)
  {
    PutStored(w, pl(id), sl, o, v);
  }

  lemma PlaceFileWritten(pl: IdPlaces, id: string, w: World, sl: Slice, spot: Spot, l: Local)
    requires Distinct(pl(id))
    ensures FileWritten(MemoryUnder(pl), pl(id), id, w, sl, spot, l)
  {
    PutFile(w, pl(id), sl, spot, l);
  }

  lemma PlaceDirWritten(pl: IdPlaces, id: string, w: World, sl: Slice, l: Local)
    requires Distinct(pl(id))
    ensures DirWritten(MemoryUnder(pl), pl(id), id, w, sl, l)
  {
    PutDir(w, pl(id), sl, l);
  }

  lemma PlaceRemovalSeen(pl: IdPlaces, id: string, w: World, sl: Slice, o: Object)
    requires Distinct(pl(id))
    ensures RemovalSeen(MemoryUnder(pl), pl(id), id, w, sl, o)
  {
    PutOlder(w, pl(id), sl, o);
  }

  /** An id with four paths and two keys of its own. */
  lemma DistinctActs(pl: IdPlaces, id: string)
    requires Distinct(pl(id))
    ensures ActsAt(MemoryUnder(pl), pl(id), id)
  {
    forall w, sl, o ensures StoreSeen(MemoryUnder(pl), pl(id), id, w, sl, o) { PlaceStoreSeen(pl, id, w, sl, o); }
    forall w, sl, spot ensures FileSeen(MemoryUnder(pl), pl(id), id, w, sl, spot) {
      PlaceFileSeen(pl, id, w, sl, spot);
    }
    forall w, sl, o, v ensures StoreWritten(MemoryUnder(pl), pl(id), id, w, sl, o, v) {
      PlaceStoreWritten(pl, id, w, sl, o, v);
    }
    forall w, sl, spot, l ensures FileWritten(MemoryUnder(pl), pl(id), id, w, sl, spot, l) {
      PlaceFileWritten(pl, id, w, sl, spot, l);
    }
    forall w, sl, l ensures DirWritten(MemoryUnder(pl), pl(id), id, w, sl, l) { PlaceDirWritten(pl, id, w, sl, l); }
    forall w, sl, o ensures RemovalSeen(MemoryUnder(pl), pl(id), id, w, sl, o) { PlaceRemovalSeen(pl, id, w, sl, o); }
  }

  // ----- file operations, as changes of the slice -----

  /** os.Create succeeds at p: there is at most a file, and nothing below. */
  predicate Free(t: Tree, p: Path) {
    forall k | k in t && Covers(p, k) :: k == p && t[k].File?
  }

  /** os.Remove succeeds at p: something is there, and nothing below. */
  predicate Lone(t: Tree, p: Path) {
    p in t && forall k | k in t && Covers(p, k) :: k == p
  }

  lemma NothingBelow(t: Tree, p: Path)
    ensures Below(t, p) == map[] <==> forall k | k in t && Covers(p, k) :: k == p
  {
    BelowMeaning(t, p);
    forall k | k in t && Covers(p, k) && k != p ensures Below(t, p) != map[] {
      PathTail(p, k);
      assert Get(Below(t, p), Tail(p, k)) == Get(t, k);
    }
    if Below(t, p) != map[] {
      var r :| r in Below(t, p);
      CoversAt(p, r);
    }
  }

  lemma LocalTests(t: Tree, p: Path)
    ensures Free(t, p) <==> Tidy(LocalAt(t, p))
    ensures Lone(t, p) <==> Removable(LocalAt(t, p))
  {
    NothingBelow(t, p);
    CoversAt(p, []);
    assert At(p, []) == p;
  }

  lemma FileTests(m: Memory<World>, p: Place, id: string, w: World, sl: Slice, spot: Spot)
    requires ActsAt(m, p, id)
    ensures var t, l := m.put(w, id, sl).disk, Seen(sl, spot);
      && Get(t, PathAt(p, spot)) == l.top
      && (Free(t, PathAt(p, spot)) <==> Tidy(l)) && (Lone(t, PathAt(p, spot)) <==> Removable(l))
  {
    assert FileSeen(m, p, id, w, sl, spot);
    LocalTests(m.put(w, id, sl).disk, PathAt(p, spot));
  }

  lemma FileCreated(m: Memory<World>, p: Place, id: string, w: World, sl: Slice, spot: Spot, b: Bytes)
    requires ActsAt(m, p, id) && Tidy(Seen(sl, spot))
    ensures var u := m.put(w, id, sl);
      World(u.store, u.disk[PathAt(p, spot) := File(b)], u.removals) == m.put(w, id, With(sl, spot, PlainFile(b)))
  {
    assert FileSeen(m, p, id, w, sl, spot);
    assert FileWritten(m, p, id, w, sl, spot, PlainFile(b));
    CreateGrafts(m.put(w, id, sl).disk, PathAt(p, spot), b);
  }

  lemma FileRemoved(m: Memory<World>, p: Place, id: string, w: World, sl: Slice, spot: Spot)
    requires ActsAt(m, p, id) && Removable(Seen(sl, spot))
    ensures var u := m.put(w, id, sl);
      World(u.store, u.disk - {PathAt(p, spot)}, u.removals) == m.put(w, id, With(sl, spot, GONE))
  {
    assert FileSeen(m, p, id, w, sl, spot);
    assert FileWritten(m, p, id, w, sl, spot, GONE);
    UnlinkGrafts(m.put(w, id, sl).disk, PathAt(p, spot));
  }

  lemma FileDropped(m: Memory<World>, p: Place, id: string, w: World, sl: Slice, o: Object)
    requires ActsAt(m, p, id) && Removable(Cached(sl, o))
    ensures var u, k := m.put(w, id, sl), PathAt(p, CacheOf(o));
      World(u.store, u.disk - {k}, Bumped(u.removals, k)) == m.put(w, id, Dropped(sl, o))
  {
    FileRemoved(m, p, id, w, sl, CacheOf(o));
    assert RemovalSeen(m, p, id, w, WithCached(sl, o, GONE), o);
  }

  lemma DirCleared(m: Memory<World>, p: Place, id: string, w: World, sl: Slice)
    requires ActsAt(m, p, id)
    ensures var u := m.put(w, id, sl);
      World(u.store, Without(u.disk, p.local.dir), u.removals) == m.put(w, id, sl.(dir := GONE))
  {
    assert DirWritten(m, p, id, w, sl, GONE);
    ClearGrafts(m.put(w, id, sl).disk, p.local.dir);
  }

  lemma DirFilled(m: Memory<World>, p: Place, id: string, w: World, sl: Slice, t: ReportTree)
    requires ActsAt(m, p, id)
    ensures var u := m.put(w, id, sl);
      World(u.store, Graft(u.disk, p.local.dir, FolderOf(t)), u.removals) == m.put(w, id, sl.(dir := FolderOf(t)))
  {
    assert DirWritten(m, p, id, w, sl, FolderOf(t));
  }

  lemma ObjectStored(m: Memory<World>, p: Place, id: string, w: World, sl: Slice, o: Object, v: Option<Bytes>)
    requires ActsAt(m, p, id)
    ensures var u := m.put(w, id, sl);
      && Get(u.store, KeyOf(p, o)) == Stored(sl, o)
      && World(Keyed(u.store, KeyOf(p, o), v), u.disk, u.removals) == m.put(w, id, WithStored(sl, o, v))
  {
    assert StoreSeen(m, p, id, w, sl, o);
    assert StoreWritten(m, p, id, w, sl, o, v);
  }

  /** The first directory in name order is the least directory name. */
  lemma FirstDir(t: Folder, names: seq<string>, i: nat)
    requires names == Sorted(Children(t, ["pages"])) && i < |names|
    requires names[i] in PageDirs(t) && forall j | 0 <= j < i :: names[j] !in PageDirs(t)
    ensures PageDirs(t) != {} && names[i] == Least(PageDirs(t))
  {
    SortedSpec(Children(t, ["pages"]));
    forall n | n in PageDirs(t) && n != names[i] ensures NameLess(names[i], n) {
      assert n in names;
      var j :| 0 <= j < |names| && names[j] == n;
    }
    LeastUnique(PageDirs(t), names[i], Least(PageDirs(t)));
  }

  class Handler {
    var store: map<string, Bytes>
    var disk: Tree
    ghost var removals: map<Path, Positive>
    const codec: Codec
    const place: IdPlaces
    /** The state as the step machines see it. */
    ghost const memory: Memory<World>

    constructor (codec: Codec, tmp: string, base: string)
      ensures this.codec == codec && place == PlacesUnder(tmp, base) && memory == ServiceMemory(tmp, base)
      ensures State() == World(map[], map[], map[])
      ensures BaseClear(Resolve(tmp), Resolve(base), CACHE) ==> forall id | PlainId(id) :: Placed(id)
      ensures forall id | !ValidId(id) :: Placed(id)
    {
      this.codec := codec;
      place := PlacesUnder(tmp, base);
      memory := ServiceMemory(tmp, base);
      store, disk, removals := map[], map[], map[];
      new;
      SeparateExactly(tmp, base);
      forall id: string, w: World ensures PutAt(w, place(id), SliceAt(w, place(id))) == w {
        PutOwn(w, place(id));
      }
      forall id | PlainId(id) && Distinct(place(id)) ensures Placed(id) {
        DistinctActs(place, id);
      }
    }

    ghost function State(): World
      reads this
    {
      World(store, disk, removals)
    }

    /** What a request does to the shared state, in terms of its own slice. */
    ghost predicate Does(w: World, req: Request, response: Response)
      reads this
    {
      var p := Handle(codec, memory.view(w, req.id), req);
      State() == memory.put(w, req.id, p.slice) && response == p.thread.response
    }

    /** An id that passes the check has four paths and two keys of its own. */
    ghost predicate Placed(id: string) {
      && (forall w: World :: memory.put(w, id, memory.view(w, id)) == w)
      && (ValidId(id) ==> ActsAt(memory, place(id), id))
    }

    /** The state is w, with this slice of the id. */
    ghost predicate StateIs(id: string, w: World, sl: Slice)
      reads this
    {
      ValidId(id) && ActsAt(memory, place(id), id) && State() == memory.put(w, id, sl)
    }

    // ----- storage.Service -----

    /** UploadFile: opens a local file and puts its content. */
    method UploadFile(key: string, file: Path, fails: bool) returns (ok: bool)
      modifies this`store
      ensures ok == (!fails && file in disk && disk[file].File?)
      ensures store == if ok then old(store)[key := disk[file].content] else old(store)
    {
      ok := false;
      if file in disk && disk[file].File? && !fails {
        store := store[key := disk[file].content];
        ok := true;
      }
    }

    /** DownloadFile: gets the object, creates the file, then copies into it. */
    method DownloadFile(key: string, file: Path, f: Faults) returns (ok: bool)
      modifies this`disk
      ensures var reached := !f.fetch && key in store && !f.create && Free(old(disk), file);
        && ok == (reached && f.torn.None?)
        && disk == if !reached then old(disk)
                   else old(disk)[file := File(if f.torn.Some? then FirstBytes(store[key], f.torn.value)
                       else store[key])]
    {
      if f.fetch || key !in store { return false; }
      var body := store[key];
      if f.create || !Free(disk, file) { return false; }
      var whole := if f.torn.Some? then FirstBytes(body, f.torn.value) else body;
      var visible := if f.early < |whole| then f.early else |whole|;
      disk := disk[file := File(whole[..visible])];
      disk := disk[file := File(Overwritten(disk[file].content, visible, whole))];
      OverwriteCompletes(whole, visible);
      ok := f.torn.None?;
    }

    method DeleteFile(key: string, fails: bool)
      modifies this`store
      ensures store == if fails then old(store) else Keyed(old(store), key, None)
    {
      if !fails { store := store - {key}; }
    }

    /** os.Remove with its error ignored. */
    method RemoveQuietly(file: Path, fails: bool) returns (ghost removed: bool)
      modifies this`disk
      ensures removed == (!fails && Lone(old(disk), file))
      ensures disk == if removed then old(disk) - {file} else old(disk)
    {
      removed := false;
      if !fails && Lone(disk, file) {
        disk := disk - {file};
        removed := true;
      }
    }

    // ----- reading -----

    /** The part that both reading handlers share: afterwards the cached file is there, or an answer is. */
    method Provide(req: Request, ghost w: World, ghost sl: Slice) returns (answer: Option<Response>, ghost after: Slice)
      requires IsRead(req) && StateIs(req.id, w, sl)
      modifies this`disk
      ensures StateIs(req.id, w, after)
      ensures after == if Downloads(sl, req)
                       then WithCached(sl, ObjectOf(req), PlainFile(Downloaded(req, Stored(sl, ObjectOf(req)).value)))
                           else sl
      ensures answer.Some? <==> !Present(Cached(sl, ObjectOf(req))) && (!Downloads(sl, req) || req.faults.torn.Some?)
      ensures answer.Some? ==> answer.value == if req.faults.cacheDir then ServerError else NotFound
    {
      var p, o := place(req.id), ObjectOf(req);
      after := sl;
      var path := PathAt(p, CacheOf(o));
      FileTests(memory, p, req.id, w, sl, CacheOf(o));
      if path in disk { return None, sl; }
      if req.faults.cacheDir { return Some(ServerError), sl; }
      ObjectStored(memory, p, req.id, w, sl, o, None);
      var ok := DownloadFile(KeyOf(p, o), path, req.faults);
      if Downloads(sl, req) {
        var whole := Downloaded(req, Stored(sl, o).value);
        FileCreated(memory, p, req.id, w, sl, CacheOf(o), whole);
        after := WithCached(sl, o, PlainFile(whole));
      }
      answer := if ok then None else Some(NotFound);
    }

    method HandleGetResult(id: string, path: string, f: Faults) returns (response: Response)
      requires Placed(id)
      modifies this`disk
      ensures Does(old(State()), GetResult(id, path, f), response)
    {
      ghost var w, sl := State(), memory.view(State(), id);
      var req := GetResult(id, path, f);
      ReadOutcome(codec, sl, req);
      if !ValidId(id) { return BadRequest; }
      var answer, after := Provide(req, w, sl);
      if answer.Some? { return answer.value; }
      var zipPath := PathAt(place(id), CacheOf(Zip));
      FileTests(memory, place(id), id, w, after, CacheOf(Zip));
      if f.read || disk[zipPath].Dir? { return NotFound; }
      var archive := codec.unpack(disk[zipPath].content);
      if archive.None? { return NotFound; }
      var file := FindFile(archive.value, path);
      if file.None? { return NotFound; }
      if f.open { return ServerError; }
      response := Page(file.value);
    }

    method HandleGetScreenshot(id: string, f: Faults) returns (response: Response)
      requires Placed(id)
      modifies this`disk
      ensures Does(old(State()), GetShot(id, f), response)
    {
      ghost var w, sl := State(), memory.view(State(), id);
      var req := GetShot(id, f);
      ReadOutcome(codec, sl, req);
      if !ValidId(id) { return BadRequest; }
      var answer, after := Provide(req, w, sl);
      if answer.Some? { return answer.value; }
      if f.read { return NotFound; }
      FileTests(memory, place(id), id, w, after, CacheOf(Shot));
      var node := disk[PathAt(place(id), CacheOf(Shot))];
      response := Image(if node.File? then node.content else []);
    }

    // ----- deleting -----

    /** One object of an id is deleted from the store. */
    method DeleteObject(id: string, o: Object, fails: bool, ghost w: World, ghost sl: Slice)
      returns (ghost after: Slice)
      requires StateIs(id, w, sl)
      modifies this`store
      ensures after == (if fails then sl else WithStored(sl, o, None)) && StateIs(id, w, after)
    {
      DeleteFile(KeyOf(place(id), o), fails);
      after := if fails then sl else WithStored(sl, o, None);
      ObjectStored(memory, place(id), id, w, sl, o, None);
    }

    /** A cached file that can be removed is removed, which is counted. */
    method TakeAway(id: string, o: Object, ghost w: World, ghost sl: Slice)
      requires StateIs(id, w, sl) && Removable(Cached(sl, o))
      modifies this`disk, this`removals
      ensures StateIs(id, w, Dropped(sl, o))
    {
      var path := PathAt(place(id), CacheOf(o));
      FileDropped(memory, place(id), id, w, sl, o);
      disk := disk - {path};
      removals := Bumped(removals, path);
    }

    /** A cached file is removed, quietly. */
    method DropFile(id: string, o: Object, fails: bool, ghost w: World, ghost sl: Slice) returns (ghost after: Slice)
      requires StateIs(id, w, sl)
      modifies this`disk, this`removals
      ensures after == DroppedUnless(sl, fails, o) && StateIs(id, w, after)
    {
      var path := PathAt(place(id), CacheOf(o));
      FileTests(memory, place(id), id, w, sl, CacheOf(o));
      after := DroppedUnless(sl, fails, o);
      if !fails && Lone(disk, path) { TakeAway(id, o, w, sl); }
    }

    /** Both cache files of an id are removed. */
    method DropCached(id: string, f: Faults, ghost w: World, ghost sl: Slice) returns (ghost after: Slice)
      requires StateIs(id, w, sl)
      modifies this`disk, this`removals
      ensures after == BothDropped(sl, f) && StateIs(id, w, after)
    {
      after := DropFile(id, Zip, f.dropZip, w, sl);
      after := DropFile(id, Shot, f.dropShot, w, after);
    }

    method HandleDeleteResult(id: string, f: Faults) returns (response: Response)
      requires Placed(id)
      modifies this
      ensures Does(old(State()), Delete(id, f), response)
    {
      ghost var w, sl := State(), memory.view(State(), id);
      DeleteOutcome(codec, sl, Delete(id, f));
      if !ValidId(id) { return BadRequest; }
      ghost var after := DeleteAll(id, f, w, sl);
      response := Okay;
    }

    /** Both objects, then both cached files. */
    method DeleteAll(id: string, f: Faults, ghost w: World, ghost sl: Slice) returns (ghost after: Slice)
      requires StateIs(id, w, sl)
      modifies this
      ensures after == BothDropped(sl.(zip := if f.deleteZip then sl.zip else None,
                                       shot := if f.deleteShot then sl.shot else None), f)
      ensures StateIs(id, w, after)
    {
      after := DeleteObject(id, Zip, f.deleteZip, w, sl);
      after := DeleteObject(id, Shot, f.deleteShot, w, after);
      after := DropCached(id, f, w, after);
    }

    // ----- analysing -----

    /** The listing of the pages directory: its first subdirectory, if any. */
    method FirstPage(t: ReportTree) returns (page: Option<string>)
      ensures page == if PageDirs(t) == {} then None else Some(Least(PageDirs(t)))
    {
      var pages := ReadDir(t, ["pages"]);
      SortedSpec(Children(t, ["pages"]));
      var i := 0;
      while i < |pages|
        invariant 0 <= i <= |pages|
        invariant forall j | 0 <= j < i :: pages[j] !in PageDirs(t)
      {
        if Get(t, ["pages"] + [pages[i]]) == Some(Dir) {
          FirstDir(t, pages, i);
          return Some(pages[i]);
        }
        i := i + 1;
      }
      page := None;
    }

    /** From the result directory to the screenshot to upload: none if a required part is missing. */
    method InspectReport(t: ReportTree) returns (shot: Option<Option<Node>>)
      ensures shot == Inspected(codec, t)
    {
      if Get(t, ["pages"]) != Some(Dir) { return None; }
      var firstPage := FirstPage(t);
      if firstPage.None? { return None; }
      if !HasSummary(codec, t) { return None; }
      shot := Some(Get(t, ShotPath(firstPage.value)));
    }

    method HandleAnalyze(id: string, valid: bool, ran: Option<ReportTree>, f: Faults) returns (response: Response)
      requires Placed(id)
      modifies this
      ensures Does(old(State()), Analyze(id, valid, ran, f), response)
    {
      ghost var w, sl := State(), memory.view(State(), id);
      AnalyzeOutcome(codec, sl, Analyze(id, valid, ran, f));
      if !ValidId(id) || !valid { return BadRequest; }
      if ran.None? { return ServerError; }
      ghost var after;
      response, after := Report(id, ran.value, f, w, sl);
    }

    /** What follows once the runner has succeeded. */
    method Report(id: string, t: ReportTree, f: Faults, ghost w: World, ghost sl: Slice)
      returns (response: Response, ghost after: Slice)
      requires StateIs(id, w, sl)
      modifies this
      ensures Inspected(codec, t).None? ==> response == ServerError && after == sl.(dir := GONE)
      ensures Inspected(codec, t).Some? ==>
        && response == AnswerOf(sl, f)
        && after == Reported(sl, f, codec.pack(ArchiveOf(t)), UploadedShot(Inspected(codec, t).value, f))
      ensures StateIs(id, w, after)
    {
      after := FillDir(id, t, w, sl);
      ghost var filled := after;
      if Inspected(codec, t).Some? {
        ReportedFrom(sl, filled, f, codec.pack(ArchiveOf(t)), UploadedShot(Inspected(codec, t).value, f));
      }
      response, after := Publish(id, t, f, w, filled);
      after := ClearDir(id, w, after);
    }

    /** What the runner does to the disk when it succeeds. */
    method FillDir(id: string, t: ReportTree, ghost w: World, ghost sl: Slice) returns (ghost after: Slice)
      requires StateIs(id, w, sl)
      modifies this`disk
      ensures after == sl.(dir := FolderOf(t)) && StateIs(id, w, after)
    {
      disk := Graft(disk, place(id).local.dir, FolderOf(t));
      DirFilled(memory, place(id), id, w, sl, t);
      after := sl.(dir := FolderOf(t));
    }

    /** The deferred removal of the result directory. */
    method ClearDir(id: string, ghost w: World, ghost sl: Slice) returns (ghost after: Slice)
      requires StateIs(id, w, sl)
      modifies this`disk
      ensures after == sl.(dir := GONE) && StateIs(id, w, after)
    {
      disk := Without(disk, place(id).local.dir);
      DirCleared(memory, place(id), id, w, sl);
      after := sl.(dir := GONE);
    }

    /** From the runner's result directory to the store. */
    method Publish(id: string, t: ReportTree, f: Faults, ghost w: World, ghost sl: Slice)
      returns (response: Response, ghost after: Slice)
      requires StateIs(id, w, sl)
      modifies this
      ensures Inspected(codec, t).None? ==> response == ServerError && after == sl
      ensures Inspected(codec, t).Some? ==> PublishedAs(t, f, Inspected(codec, t).value, sl, response, after)
      ensures StateIs(id, w, after)
    {
      var shot := InspectReport(t);
      if shot.None? { return ServerError, sl; }
      after := StoreScreenshot(id, shot.value, f, w, sl);
      ReportedShot(sl, f, codec.pack(ArchiveOf(t)), UploadedShot(shot.value, f));
      response, after := StoreReport(id, t, f, w, after);
    }

    /** The screenshot, if it is there, is uploaded; a failure is only logged. */
    method StoreScreenshot(id: string, shot: Option<Node>, f: Faults, ghost w: World, ghost sl: Slice)
      returns (ghost after: Slice)
      requires StateIs(id, w, sl)
      modifies this`store
      ensures after == sl.(shot := if UploadedShot(shot, f).Some? then UploadedShot(shot, f) else sl.shot)
      ensures StateIs(id, w, after)
    {
      after := sl;
      if shot.Some? && shot.value.File? && !f.uploadShot {
        var content := shot.value.content;
        ObjectStored(memory, place(id), id, w, sl, Shot, Some(content));
        store := store[KeyOf(place(id), Shot) := content];
        after := sl.(shot := Some(content));
      }
    }

    function UploadedShot(shot: Option<Node>, f: Faults): Option<Bytes> {
      if shot.Some? && shot.value.File? && !f.uploadShot then Some(shot.value.content) else None
    }

    /** What storing a report comes to, but for the result directory, which stays for the moment. */
    ghost predicate PublishedAs(
        t: ReportTree, f: Faults, shot: Option<Node>, sl: Slice, response: Response, after: Slice) {
      && response == AnswerOf(sl, f)
      && after == Reported(sl, f, codec.pack(ArchiveOf(t)), UploadedShot(shot, f)).(dir := sl.dir)
    }

    /** Packs the result directory, uploads the zip, and on success clears the cache. */
    method StoreReport(id: string, t: ReportTree, f: Faults, ghost w: World, ghost sl: Slice)
      returns (response: Response, ghost after: Slice)
      requires StateIs(id, w, sl)
      modifies this
      ensures PublishedAs(t, f, None, sl, response, after)
      ensures StateIs(id, w, after)
    {
      after := ClearTemp(id, w, sl);
      ReportedCleared(sl, f, codec.pack(ArchiveOf(t)));
      var packed := PackReport(id, t, f, w, after);
      if packed.None? {
        after := after.(temp := TempAfter(after, f));
        return ServerError, after;
      }
      response, after := UploadReport(id, packed.value, f, w, after);
    }

    /** The temporary zip is removed, quietly. */
    method ClearTemp(id: string, ghost w: World, ghost sl: Slice) returns (ghost after: Slice)
      requires StateIs(id, w, sl)
      modifies this`disk
      ensures after == sl.(temp := Unlinked(sl.temp)) && StateIs(id, w, after)
    {
      FileTests(memory, place(id), id, w, sl, Temporary);
      ghost var removed := RemoveQuietly(PathAt(place(id), Temporary), false);
      after := sl.(temp := Unlinked(sl.temp));
      if removed { FileRemoved(memory, place(id), id, w, sl, Temporary); }
    }

    /** ZipDirectory into the temporary file, or what a failed attempt leaves there. */
    method PackReport(id: string, t: ReportTree, f: Faults, ghost w: World, ghost sl: Slice)
      returns (packed: Option<Bytes>)
      requires StateIs(id, w, sl) && (sl.temp.below == map[] ==> sl.temp == GONE)
      modifies this`disk
      ensures packed == if f.pack.Some? || sl.temp.below != map[] then None else Some(codec.pack(ArchiveOf(t)))
      ensures StateIs(id, w, sl.(temp := if packed.Some? then PlainFile(packed.value) else TempAfter(sl, f)))
    {
      var temp := PathAt(place(id), Temporary);
      FileTests(memory, place(id), id, w, sl, Temporary);
      if !Free(disk, temp) { return None; }
      if f.pack.Some? {
        if f.pack.value.Some? {
          FileCreated(memory, place(id), id, w, sl, Temporary, f.pack.value.value);
          disk := disk[temp := File(f.pack.value.value)];
        }
        return None;
      }
      var writer := new ZipWriter();
      var whole := writer.ZipDirectory(t, true, {});
      packed := Some(codec.pack(writer.entries));
      FileCreated(memory, place(id), id, w, sl, Temporary, packed.value);
      disk := disk[temp := File(packed.value)];
    }

    /** From the temporary zip to the store, and on success out of the cache; either way the zip is removed. */
    method UploadReport(id: string, packed: Bytes, f: Faults, ghost w: World, ghost sl: Slice)
      returns (response: Response, ghost after: Slice)
      requires StateIs(id, w, sl.(temp := PlainFile(packed))) && sl.temp == GONE && f.pack.None?
      modifies this
      ensures response == AnswerOf(sl, f)
      ensures after == Reported(sl, f, packed, None).(dir := sl.dir) && StateIs(id, w, after)
    {
      after := sl.(temp := PlainFile(packed));
      FileTests(memory, place(id), id, w, after, Temporary);
      ObjectStored(memory, place(id), id, w, after, Zip, Some(packed));
      var stored := UploadFile(KeyOf(place(id), Zip), PathAt(place(id), Temporary), f.uploadZip);
      if stored {
        after := after.(zip := Some(packed));
        after := DropCached(id, f, w, after);
        DropsElsewhere(sl.(zip := Some(packed)), sl.(zip := Some(packed), temp := PlainFile(packed)), f);
      }
      after := ClearTemp(id, w, after);
      response := if stored then Okay else ServerError;
    }
  }
}
