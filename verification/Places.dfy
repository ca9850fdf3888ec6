/**
 * Where everything is kept: one store, and one disk on which the files and the result
 * directories of all ids lie. What one id owns is taken out as its slice and put back.
 */
module Places {
  import opened Wrappers
  import opened Paths
  import opened Extract
  import opened ZipDir
  import opened Report
  import opened Keys
  import opened Footprints
  import opened Requests
  import opened Interleaving

  type Positive = n: nat | n > 0 witness 1

  /** Store objects by key; one disk by path; how often the file at a path was removed. */
  datatype World = World(store: map<string, Bytes>, disk: Tree, removals: map<Path, Positive>)

  /** Where one id is kept. */
  datatype Place = Place(zip: string, shot: string, local: Locals)

  type IdPlaces = string -> Place

  function PlacesUnder(tmp: string, base: string): IdPlaces {
    (id: string) => Place(ZipKey(id), ShotKey(id), LocalsOf(tmp, base, id))
  }

  function Keyed<K, V>(m: map<K, V>, k: K, v: Option<V>): map<K, V> {
    match v
    case Some(x) => m[k := x]
    case None => m - {k}
  }

  /** Two keys written in turn. */
  function Two<K, V>(m: map<K, V>, k: K, v: Option<V>, l: K, w: Option<V>): map<K, V> {
    Keyed(Keyed(m, k, v), l, w)
  }

  function RemovalsAt(m: map<Path, Positive>, p: Path): nat {
    if p in m then m[p] else 0
  }

  function Counted(n: nat): Option<Positive> {
    if n == 0 then None else Some(n)
  }

  /** All that the four paths hold, put back. */
  function PutLocals(t: Tree, l: Locals, sl: Slice): Tree {
    Graft(PutFiles(t, l, sl), l.dir, sl.dir)
  }

  function PutFiles(t: Tree, l: Locals, sl: Slice): Tree {
    Graft(Graft(Graft(t, l.temp, sl.temp), l.cachedZip, sl.cachedZip), l.cachedShot, sl.cachedShot)
  }

  function SliceAt(w: World, p: Place): Slice {
    Slice(Get(w.store, p.zip), Get(w.store, p.shot),
          LocalAt(w.disk, p.local.temp), LocalAt(w.disk, p.local.cachedZip),
          LocalAt(w.disk, p.local.cachedShot), LocalAt(w.disk, p.local.dir),
          RemovalsAt(w.removals, p.local.cachedZip), RemovalsAt(w.removals, p.local.cachedShot))
  }

  /** Writes one id's state back under its own keys and paths. */
  function PutAt(w: World, p: Place, sl: Slice): World {
    World(Two(w.store, p.zip, sl.zip, p.shot, sl.shot),
          PutLocals(w.disk, p.local, sl),
          Two(w.removals, p.local.cachedZip, Counted(sl.zipAge), p.local.cachedShot, Counted(sl.shotAge)))
  }

  lemma KeyedGet<K, V>(m: map<K, V>, k: K, v: Option<V>, j: K)
    ensures Get(Keyed(m, k, v), j) == if j == k then v else Get(m, j)
  {
  }

  lemma TwoGet<K, V>(m: map<K, V>, k: K, v: Option<V>, l: K, w: Option<V>, j: K)
    ensures Get(Two(m, k, v, l, w), j) == if j == l then w else if j == k then v else Get(m, j)
  {
    KeyedGet(Keyed(m, k, v), l, w, j);
    KeyedGet(m, k, v, j);
  }

  lemma TwoOwn<K, V>(m: map<K, V>, k: K, l: K)
    ensures Two(m, k, Get(m, k), l, Get(m, l)) == m
  {
    forall j ensures Get(Two(m, k, Get(m, k), l, Get(m, l)), j) == Get(m, j) {
      TwoGet(m, k, Get(m, k), l, Get(m, l), j);
    }
    SameMap(Two(m, k, Get(m, k), l, Get(m, l)), m);
  }

  lemma CountGet(m: map<Path, Positive>, p: Path)
    ensures Get(m, p) == Counted(RemovalsAt(m, p))
  {
  }

  /** The keys and paths of one place are told apart. */
  predicate Distinct(p: Place) {
    p.zip != p.shot && SelfAside(p.local)
  }

  /** Two places share no key, and no path of the one is, or contains, a path of the other. */
  predicate Apart(p: Place, q: Place) {
    && p.zip != q.zip && p.zip != q.shot && p.shot != q.zip && p.shot != q.shot
    && LocalsAside(p.local, q.local)
  }

  ghost predicate Separate(pl: IdPlaces) {
    && (forall id | PlainId(id) :: Distinct(pl(id)))
    && (forall a, b | PlainId(a) && PlainId(b) && a != b :: Apart(pl(a), pl(b)))
  }

  lemma ObjectsApart(a: string, b: string)
    requires a != b
    ensures ZipKey(a) != ZipKey(b) && ZipKey(a) != ShotKey(b) && ShotKey(a) != ZipKey(b) && ShotKey(a) != ShotKey(b)
  {
    ZipIsNoShot(a, b);
    ZipIsNoShot(b, a);
    if ZipKey(a) == ZipKey(b) { ZipKeyInjective(a, b); }
    if ShotKey(a) == ShotKey(b) { ShotKeyInjective(a, b); }
  }

  /** What the service keeps for different ids is separate exactly when its two directories are clear of each other. */
  lemma SeparateExactly(tmp: string, base: string)
    ensures Separate(PlacesUnder(tmp, base)) <==> BaseClear(Resolve(tmp), Resolve(base), CACHE)
  {
    FootprintsApartExactly(tmp, base);
    if BaseClear(Resolve(tmp), Resolve(base), CACHE) {
      forall id | PlainId(id) ensures Distinct(PlacesUnder(tmp, base)(id)) {
        ZipIsNoShot(id, id);
        ClearSelf(tmp, base, id);
      }
      forall a, b | PlainId(a) && PlainId(b) && a != b
        ensures Apart(PlacesUnder(tmp, base)(a), PlacesUnder(tmp, base)(b))
      {
        ObjectsApart(a, b);
      }
    } else {
      var a, b :| PlainId(a) && PlainId(b) && a != b && !LocalsAside(LocalsOf(tmp, base, a), LocalsOf(tmp, base, b));
      assert !Apart(PlacesUnder(tmp, base)(a), PlacesUnder(tmp, base)(b));
    }
  }

  lemma EqualDistinct(tmp: string, id: string)
    requires PlainId(id) && id != CACHE
    ensures Distinct(PlacesUnder(tmp, tmp)(id))
  {
    ZipIsNoShot(id, id);
    EqualSelf(tmp, id);
  }

  // ----- reading back what was put -----

  lemma PutLocalsOther(t: Tree, l: Locals, sl: Slice, q: Path)
    requires FilesAside(l, q) && Aside(l.dir, q)
    ensures LocalAt(PutLocals(t, l, sl), q) == LocalAt(t, q)
  {
    var a := Graft(t, l.temp, sl.temp);
    var b := Graft(a, l.cachedZip, sl.cachedZip);
    var c := Graft(b, l.cachedShot, sl.cachedShot);
    GraftOther(t, l.temp, sl.temp, q);
    GraftOther(a, l.cachedZip, sl.cachedZip, q);
    GraftOther(b, l.cachedShot, sl.cachedShot, q);
    GraftOther(c, l.dir, sl.dir, q);
  }

  lemma PutLocalsSame(t: Tree, l: Locals, sl: Slice)
    requires SelfAside(l)
    ensures var u := PutLocals(t, l, sl);
      && LocalAt(u, l.temp) == sl.temp && LocalAt(u, l.cachedZip) == sl.cachedZip
      && LocalAt(u, l.cachedShot) == sl.cachedShot && LocalAt(u, l.dir) == sl.dir
  {
    var a := Graft(t, l.temp, sl.temp);
    var b := Graft(a, l.cachedZip, sl.cachedZip);
    var c := Graft(b, l.cachedShot, sl.cachedShot);
    GraftSame(t, l.temp, sl.temp);
    GraftOther(a, l.cachedZip, sl.cachedZip, l.temp);
    GraftOther(b, l.cachedShot, sl.cachedShot, l.temp);
    GraftOther(c, l.dir, sl.dir, l.temp);
    GraftSame(a, l.cachedZip, sl.cachedZip);
    GraftOther(b, l.cachedShot, sl.cachedShot, l.cachedZip);
    GraftOther(c, l.dir, sl.dir, l.cachedZip);
    GraftSame(b, l.cachedShot, sl.cachedShot);
    GraftOther(c, l.dir, sl.dir, l.cachedShot);
    GraftSame(c, l.dir, sl.dir);
  }

  lemma PutSame(w: World, p: Place, sl: Slice)
    requires Distinct(p)
    ensures SliceAt(PutAt(w, p, sl), p) == sl
  {
    PutLocalsSame(w.disk, p.local, sl);
    CountsSame(w.removals, p.local.cachedZip, sl.zipAge, p.local.cachedShot, sl.shotAge);
    TwoGet(w.store, p.zip, sl.zip, p.shot, sl.shot, p.zip);
    TwoGet(w.store, p.zip, sl.zip, p.shot, sl.shot, p.shot);
  }

  lemma CountsSame(m: map<Path, Positive>, k: Path, a: nat, l: Path, b: nat)
    requires Aside(k, l)
    ensures RemovalsAt(Two(m, k, Counted(a), l, Counted(b)), k) == a
    ensures RemovalsAt(Two(m, k, Counted(a), l, Counted(b)), l) == b
  {
    assert Covers(k, k);
    TwoGet(m, k, Counted(a), l, Counted(b), k);
    TwoGet(m, k, Counted(a), l, Counted(b), l);
    CountIs(Two(m, k, Counted(a), l, Counted(b)), k, a);
    CountIs(Two(m, k, Counted(a), l, Counted(b)), l, b);
  }

  lemma CountIs(m: map<Path, Positive>, k: Path, n: nat)
    requires Get(m, k) == Counted(n)
    ensures RemovalsAt(m, k) == n
  {
  }

  lemma PutOther(w: World, p: Place, q: Place, sl: Slice)
    requires Apart(p, q)
    ensures SliceAt(PutAt(w, p, sl), q) == SliceAt(w, q)
  {
    PutLocalsOther(w.disk, p.local, sl, q.local.temp);
    PutLocalsOther(w.disk, p.local, sl, q.local.cachedZip);
    PutLocalsOther(w.disk, p.local, sl, q.local.cachedShot);
    PutLocalsOther(w.disk, p.local, sl, q.local.dir);
    TwoGet(w.store, p.zip, sl.zip, p.shot, sl.shot, q.zip);
    TwoGet(w.store, p.zip, sl.zip, p.shot, sl.shot, q.shot);
    CountOther(w, p, sl, q.local.cachedZip);
    CountOther(w, p, sl, q.local.cachedShot);
  }

  lemma CountOther(w: World, p: Place, sl: Slice, k: Path)
    requires FilesAside(p.local, k)
    ensures RemovalsAt(PutAt(w, p, sl).removals, k) == RemovalsAt(w.removals, k)
  {
    assert Covers(k, k);
    TwoGet(w.removals, p.local.cachedZip, Counted(sl.zipAge), p.local.cachedShot, Counted(sl.shotAge), k);
    CountGet(w.removals, k);
    CountIs(PutAt(w, p, sl).removals, k, RemovalsAt(w.removals, k));
  }

  lemma PutOwn(w: World, p: Place)
    ensures PutAt(w, p, SliceAt(w, p)) == w
  {
    TwoOwn(w.store, p.zip, p.shot);
    CountGet(w.removals, p.local.cachedZip);
    CountGet(w.removals, p.local.cachedShot);
    TwoOwn(w.removals, p.local.cachedZip, p.local.cachedShot);
    GraftOwn(w.disk, p.local.temp);
    GraftOwn(w.disk, p.local.cachedZip);
    GraftOwn(w.disk, p.local.cachedShot);
    GraftOwn(w.disk, p.local.dir);
  }

  // ----- a state that differs from another in one place only -----

  predicate Owns(l: Locals, k: Path) {
    Covers(l.temp, k) || Covers(l.cachedZip, k) || Covers(l.cachedShot, k) || Covers(l.dir, k)
  }

  /** Alike but for two keys. */
  ghost predicate AlikeBut<K(!new), V>(n: map<K, V>, m: map<K, V>, k: K, l: K) {
    forall j | j != k && j != l :: Get(n, j) == Get(m, j)
  }

  ghost predicate SameElsewhere(u: World, w: World, p: Place) {
    && AlikeBut(u.store, w.store, p.zip, p.shot)
    && (forall k | !Owns(p.local, k) :: Get(u.disk, k) == Get(w.disk, k))
    && AlikeBut(u.removals, w.removals, p.local.cachedZip, p.local.cachedShot)
  }

  lemma PieceAt(t: Tree, p: Path, k: Path)
    requires Covers(p, k)
    ensures Piece(p, LocalAt(t, p), k) == Get(t, k)
  {
    BelowMeaning(t, p);
    if k != p { PathTail(p, k); }
  }

  lemma PutLocalsGet(t: Tree, l: Locals, sl: Slice, k: Path)
    requires SelfAside(l)
    ensures Get(PutLocals(t, l, sl), k) ==
      if Covers(l.temp, k) then Piece(l.temp, sl.temp, k)
      else if Covers(l.cachedZip, k) then Piece(l.cachedZip, sl.cachedZip, k)
      else if Covers(l.cachedShot, k) then Piece(l.cachedShot, sl.cachedShot, k)
      else if Covers(l.dir, k) then Piece(l.dir, sl.dir, k)
      else Get(t, k)
  {
    var a := Graft(t, l.temp, sl.temp);
    var b := Graft(a, l.cachedZip, sl.cachedZip);
    GraftMeaning(t, l.temp, sl.temp);
    GraftMeaning(a, l.cachedZip, sl.cachedZip);
    GraftMeaning(b, l.cachedShot, sl.cachedShot);
    GraftMeaning(PutFiles(t, l, sl), l.dir, sl.dir);
    AsideSplit(l.temp, l.cachedZip, k);
    AsideSplit(l.temp, l.cachedShot, k);
    AsideSplit(l.temp, l.dir, k);
    AsideSplit(l.cachedZip, l.cachedShot, k);
    AsideSplit(l.cachedZip, l.dir, k);
    AsideSplit(l.cachedShot, l.dir, k);
  }

  lemma DiskIsPut(u: Tree, t: Tree, l: Locals, sl: Slice)
    requires SelfAside(l)
    requires LocalAt(u, l.temp) == sl.temp && LocalAt(u, l.cachedZip) == sl.cachedZip
    requires LocalAt(u, l.cachedShot) == sl.cachedShot && LocalAt(u, l.dir) == sl.dir
    requires forall k | !Owns(l, k) :: Get(u, k) == Get(t, k)
    ensures u == PutLocals(t, l, sl)
  {
    forall k ensures Get(u, k) == Get(PutLocals(t, l, sl), k) {
      PutLocalsGet(t, l, sl, k);
      if Covers(l.temp, k) { PieceAt(u, l.temp, k); }
      else if Covers(l.cachedZip, k) { PieceAt(u, l.cachedZip, k); }
      else if Covers(l.cachedShot, k) { PieceAt(u, l.cachedShot, k); }
      else if Covers(l.dir, k) { PieceAt(u, l.dir, k); }
    }
    SameMap(u, PutLocals(t, l, sl));
  }

  lemma TwoIs<K(!new), V>(n: map<K, V>, m: map<K, V>, k: K, v: Option<V>, l: K, w: Option<V>)
    requires Get(n, k) == v && Get(n, l) == w && AlikeBut(n, m, k, l)
    ensures n == Two(m, k, v, l, w)
  {
    forall j ensures Get(n, j) == Get(Two(m, k, v, l, w), j) {
      TwoGet(m, k, v, l, w, j);
    }
    SameMap(n, Two(m, k, v, l, w));
  }

  lemma CountsAre(n: map<Path, Positive>, m: map<Path, Positive>, k: Path, a: nat, l: Path, b: nat)
    requires RemovalsAt(n, k) == a && RemovalsAt(n, l) == b && AlikeBut(n, m, k, l)
    ensures n == Two(m, k, Counted(a), l, Counted(b))
  {
    CountGet(n, k);
    CountGet(n, l);
    TwoIs(n, m, k, Counted(a), l, Counted(b));
  }

  lemma StoreIsPut(u: World, w: World, p: Place, sl: Slice)
    requires SliceAt(u, p) == sl && SameElsewhere(u, w, p)
    ensures u.store == Two(w.store, p.zip, sl.zip, p.shot, sl.shot)
  {
    TwoIs(u.store, w.store, p.zip, sl.zip, p.shot, sl.shot);
  }

  lemma RemovalsArePut(u: World, w: World, p: Place, sl: Slice)
    requires SliceAt(u, p) == sl && SameElsewhere(u, w, p)
    ensures u.removals == Two(w.removals, p.local.cachedZip, Counted(sl.zipAge), p.local.cachedShot,
        Counted(sl.shotAge))
  {
    CountsAre(u.removals, w.removals, p.local.cachedZip, sl.zipAge, p.local.cachedShot, sl.shotAge);
  }

  lemma LocalsArePut(u: World, w: World, p: Place, sl: Slice)
    requires SelfAside(p.local) && SliceAt(u, p) == sl && SameElsewhere(u, w, p)
    ensures u.disk == PutLocals(w.disk, p.local, sl)
  {
    DiskIsPut(u.disk, w.disk, p.local, sl);
  }

  /** A state with this slice, and otherwise as w, is w with the slice put in. */
  lemma PutIs(u: World, w: World, p: Place, sl: Slice)
    requires Distinct(p) && SliceAt(u, p) == sl && SameElsewhere(u, w, p)
    ensures u == PutAt(w, p, sl)
  {
    StoreIsPut(u, w, p, sl);
    LocalsArePut(u, w, p, sl);
    RemovalsArePut(u, w, p, sl);
  }

  /** What a graft at one of the four paths changes of the slice. */
  lemma GraftSlice(u: World, p: Place, at: Path, l: Local)
    requires Distinct(p) && at in {p.local.temp, p.local.cachedZip, p.local.cachedShot, p.local.dir}
    ensures var after, sl := u.(disk := Graft(u.disk, at, l)), SliceAt(u, p);
      && SliceAt(after, p) == (if at == p.local.temp then sl.(temp := l)
                               else if at == p.local.cachedZip then sl.(cachedZip := l)
                               else if at == p.local.cachedShot then sl.(cachedShot := l)
                               else sl.(dir := l))
      && forall k | !Owns(p.local, k) :: Get(after.disk, k) == Get(u.disk, k)
  {
    GraftMeaning(u.disk, at, l);
    GraftAt(u.disk, at, l, p.local.temp);
    GraftAt(u.disk, at, l, p.local.cachedZip);
    GraftAt(u.disk, at, l, p.local.cachedShot);
    GraftAt(u.disk, at, l, p.local.dir);
  }

  lemma GraftAt(t: Tree, p: Path, l: Local, q: Path)
    requires p == q || Aside(p, q)
    ensures LocalAt(Graft(t, p, l), q) == if p == q then l else LocalAt(t, q)
    ensures Covers(p, p)
  {
    if p == q { GraftSame(t, p, l); } else { GraftOther(t, p, l, q); }
  }

  lemma OwnPathsDiffer(l: Locals)
    requires SelfAside(l)
    ensures l.cachedZip != l.temp && l.cachedShot != l.temp && l.cachedShot != l.cachedZip
    ensures l.dir != l.temp && l.dir != l.cachedZip && l.dir != l.cachedShot
  {
    assert Covers(l.temp, l.temp) && Covers(l.cachedZip, l.cachedZip) && Covers(l.cachedShot, l.cachedShot);
  }

  /** Putting only another result directory is replacing it on the disk. */
  lemma DirPut(w: World, p: Place, l: Local)
    requires Distinct(p)
    ensures PutAt(w, p, SliceAt(w, p).(dir := l)) == w.(disk := Graft(w.disk, p.local.dir, l))
  {
    OwnPathsDiffer(p.local);
    GraftSlice(w, p, p.local.dir, l);
    PutIs(w.(disk := Graft(w.disk, p.local.dir, l)), w, p, SliceAt(w, p).(dir := l));
  }

  // ----- the memory, as the handlers see it -----

  function MemoryUnder(pl: IdPlaces): Memory<World> {
    Memory((w: World, id: string) => SliceAt(w, pl(id)), (w: World, id: string, sl: Slice) => PutAt(w, pl(id), sl))
  }

  lemma DistinctOwns(pl: IdPlaces, id: string)
    requires Distinct(pl(id))
    ensures OwnSlice(MemoryUnder(pl), id)
  {
    forall w: World, sl: Slice ensures SliceAt(PutAt(w, pl(id), sl), pl(id)) == sl {
      PutSame(w, pl(id), sl);
    }
  }

  /** Separate places make slices that do not see each other. */
  lemma SeparateSlices(pl: IdPlaces)
    requires Separate(pl)
    ensures SlicesApart(MemoryUnder(pl))
  {
    forall id | PlainId(id) ensures OwnSlice(MemoryUnder(pl), id) {
      DistinctOwns(pl, id);
    }
    forall w: World, a: string, b: string, sl: Slice | PlainId(a) && PlainId(b) && a != b
      ensures SliceAt(PutAt(w, pl(a), sl), pl(b)) == SliceAt(w, pl(b))
    {
      PutOther(w, pl(a), pl(b), sl);
    }
    forall w: World, id: string ensures PutAt(w, pl(id), SliceAt(w, pl(id))) == w {
      PutOwn(w, pl(id));
    }
  }

  function ServiceMemory(tmp: string, base: string): Memory<World> {
    MemoryUnder(PlacesUnder(tmp, base))
  }

  lemma MemoryView(pl: IdPlaces, w: World, id: string)
    ensures MemoryUnder(pl).view(w, id).temp == LocalAt(w.disk, pl(id).local.temp)
    ensures MemoryUnder(pl).view(w, id).dir == LocalAt(w.disk, pl(id).local.dir)
  {
  }

  lemma LocalPlaces(tmp: string, base: string, id: string)
    ensures PlacesUnder(tmp, base)(id).local == LocalsOf(tmp, base, id)
  {
  }

  /** A path below the result directory of one id, after that directory was put. */
  lemma BelowPutDir(w: World, p: Place, sl: Slice, q: Place)
    requires Covers(p.local.dir, q.local.dir)
    ensures SliceAt(PutAt(w, p, sl), q).dir.top == Piece(p.local.dir, sl.dir, q.local.dir)
  {
    GraftMeaning(PutFiles(w.disk, p.local, sl), p.local.dir, sl.dir);
  }

  /**
   * The handlers, on any two directories that are clear of each other: other ids' requests
   * can be removed from any run.
   */
  lemma HandlersDoNotInterfere(c: Codec, tmp: string, base: string, s: System<World>, sched: seq<nat>, id: string)
    requires BaseClear(Resolve(tmp), Resolve(base), CACHE) && IdsPlain(s) && PlainId(id)
    ensures var m := ServiceMemory(tmp, base);
      SameFor(m, Exec(Handlers(c), m, s, sched), Exec(Handlers(c), m, s, Filtered(s, sched, id)), id)
  {
    var m := ServiceMemory(tmp, base);
    SeparateExactly(tmp, base);
    SeparateSlices(PlacesUnder(tmp, base));
    HandlersKeepRequests(c);
    NonInterference(Handlers(c), m, s, s, sched, id);
  }

  /**
   * The handlers, from a coherent cache: it is sound throughout exactly when no step spoils
   * it, and then, whenever nothing is in flight for the id, coherent again.
   */
  lemma HandlersStayCoherent(
      c: Codec, tmp: string, base: string, s: System<World>, sched: seq<nat>, id: string, o: Object)
    requires BaseClear(Resolve(tmp), Resolve(base), CACHE) && IdsPlain(s) && PlainId(id)
    requires Coherent(ServiceMemory(tmp, base).view(s.world, id), o)
    ensures var m := ServiceMemory(tmp, base);
      && (NeverSpoiled(Handlers(c), m, s, sched, id, o) <==> SoundThroughout(Handlers(c), m, s, sched, id, o))
      && (NeverSpoiled(Handlers(c), m, s, sched, id, o) && AtRest(Exec(Handlers(c), m, s, sched), id) ==>
            Coherent(m.view(Exec(Handlers(c), m, s, sched).world, id), o))
      && (NoSpoilingStep(Handlers(c), m, s, sched, id, o) ==> NeverSpoiled(Handlers(c), m, s, sched, id, o))
  {
    var m := ServiceMemory(tmp, base);
    SeparateExactly(tmp, base);
    SeparateSlices(PlacesUnder(tmp, base));
    HandlersKeepRequests(c);
    HandlersKeepCache(c);
    SoundExactly(Handlers(c), m, s, sched, id, o);
    if NoSpoilingStep(Handlers(c), m, s, sched, id, o) { SoundWithoutSpoiling(Handlers(c), m, s, sched, id, o); }
    if NeverSpoiled(Handlers(c), m, s, sched, id, o) && AtRest(Exec(Handlers(c), m, s, sched), id) {
      SoundAtEnd(Handlers(c), m, s, sched, id, o);
      RestIsCoherent(m, Exec(Handlers(c), m, s, sched), id, o);
    }
  }
}
