/**
 * The texture manager's bookkeeping: the texID -> GL texture map with
 * replace-on-reuse loading, the id generator, the file-name table feeding the
 * texture atlas with its accumulated size, the atlas build, and the lazily
 * created single instance. GL texture names are drawn from a counter (glGenTextures
 * never hands out 0 or a name still in use); image decoding and atlas region
 * allocation are parameters.
 */
module TextureManager {
  import opened Wrappers
  import opened ImageDecoding
  import opened AtlasTable

  /** A GL texture name. */
  type Handle = nat

  /**
   * `texIds` is m_texID, `live` the GL textures this manager has created and not
   * deleted, `nextHandle` the next name glGenTextures returns, `textures` the
   * atlas table, `atlasWidth`/`atlasHeight` the accumulated atlas size,
   * `atlasTexture` the GL texture of the current atlas (None when it has none), `ids` the id counter.
   */
  datatype Registry = Registry(
    texIds: map<nat, Handle>,
    live: set<Handle>,
    nextHandle: Handle,
    textures: Table,
    atlasWidth: int,
    atlasHeight: int,
    atlasTexture: Option<Handle>,
    ids: nat)

  /** The invariant every reachable registry keeps. */
  ghost predicate Valid(r: Registry)
  {
    && 0 < r.nextHandle
    && (forall h :: h in r.live ==> 0 < h < r.nextHandle)
    && (forall k :: k in r.texIds ==> r.texIds[k] in r.live)
    && (forall k1, k2 :: k1 in r.texIds && k2 in r.texIds && k1 != k2 ==> r.texIds[k1] != r.texIds[k2])
    && (r.atlasTexture.Some? ==> r.atlasTexture.value in r.live)
    && (r.atlasTexture.Some? ==> forall k :: k in r.texIds ==> r.texIds[k] != r.atlasTexture.value)
    && Sorted(r.textures)
  }

  /** A new manager: no textures, atlas size 0 x 0, id counter at 0. */
  function New(): (r: Registry)
    ensures Valid(r)
  {
    Registry(map[], {}, 1, [], 0, 0, None, 0)
  }

  /** glGenTextures: a name not in use, which becomes live. */
  function GenTexture(r: Registry): (res: (Handle, Registry))
    ensures res.1 == r.(live := r.live + {res.0}, nextHandle := res.1.nextHandle)
    ensures Valid(r) ==> 0 < res.0 && res.0 !in r.live && r.nextHandle < res.1.nextHandle
  {
    (r.nextHandle, r.(live := r.live + {r.nextHandle}, nextHandle := r.nextHandle + 1))
  }

  /** glDeleteTextures: the name is no longer live. */
  function DeleteTexture(r: Registry, h: Handle): Registry
  {
    r.(live := r.live - {h})
  }

  // ---------------------------------------------------------------- ids

  /** generateId: hands out the counter's current value and advances it by one. */
  function GenerateId(r: Registry): (res: (nat, Registry))
    ensures res.0 == r.ids && res.1.ids == r.ids + 1
    ensures res.1 == r.(ids := r.ids + 1)
  {
    (r.ids, r.(ids := r.ids + 1))
  }

  /** n successive calls of generateId, the ids in the order handed out. */
  function GenerateIds(r: Registry, n: nat): (res: (seq<nat>, Registry))
    ensures |res.0| == n && res.1 == r.(ids := r.ids + n)
    ensures forall k :: 0 <= k < n ==> res.0[k] == r.ids + k
    decreases n
  {
    if n == 0 then ([], r)
    else
      var (id, r1) := GenerateId(r);
      var (rest, r2) := GenerateIds(r1, n - 1);
      ([id] + rest, r2)
  }

  /** From a new manager the ids handed out are 0, 1, 2, ...: strictly increasing, hence distinct. */
  lemma IdsFromNew(n: nat)
    ensures var ids := GenerateIds(New(), n).0;
            && (forall k :: 0 <= k < n ==> ids[k] == k)
            && (forall i, j :: 0 <= i < j < n ==> ids[i] < ids[j])
  {
  }

  // ---------------------------------------------------------------- GL textures by id

  /** Result of a load: the boolean returned, the width/height out-parameters, the new state. */
  datatype LoadResult = LoadResult(ok: bool, width: int, height: int, reg: Registry)

  /**
   * LoadTexture(filename, texID, width, height, ...): decode the image; fail on an
   * unknown format, a null bitmap, null pixels or a zero side. Otherwise delete
   * the texture texID held, if any, create a new GL texture and map texID to it.
   * The width/height out-parameters are written as soon as a bitmap is loaded.
   */
  function LoadTexture(r: Registry, lib: ImageLib, filename: string, texId: nat, width: int, height: int): (res: LoadResult)
    ensures res.ok <==> OpenImage(lib, filename).Some? && Usable(OpenImage(lib, filename).value)
    ensures !res.ok ==> res.reg == r
    ensures OpenImage(lib, filename).None? ==> res.width == width && res.height == height
    ensures OpenImage(lib, filename).Some? ==>
              res.width == OpenImage(lib, filename).value.width && res.height == OpenImage(lib, filename).value.height
    ensures res.ok ==> texId in res.reg.texIds && res.reg.texIds[texId] in res.reg.live
    ensures res.ok && Valid(r) ==> res.reg.texIds[texId] !in r.live
    ensures res.ok ==> forall k :: k != texId ==>
              && (k in res.reg.texIds <==> k in r.texIds)
              && (k in r.texIds ==> res.reg.texIds[k] == r.texIds[k])
    ensures res.ok ==>
              res.reg.live == (if texId in r.texIds then r.live - {r.texIds[texId]} else r.live) + {res.reg.texIds[texId]}
    ensures res.reg.textures == r.textures && res.reg.ids == r.ids && res.reg.atlasTexture == r.atlasTexture
    ensures res.reg.atlasWidth == r.atlasWidth && res.reg.atlasHeight == r.atlasHeight
    ensures Valid(r) ==> Valid(res.reg)
  {
    match OpenImage(lib, filename)
    case None => LoadResult(false, width, height, r)
    case Some(bm) =>
      if !Usable(bm) then LoadResult(false, bm.width, bm.height, r)
      else
        var r1 := if texId in r.texIds then DeleteTexture(r, r.texIds[texId]) else r;
        var (h, r2) := GenTexture(r1);
        LoadResult(true, bm.width, bm.height, r2.(texIds := r2.texIds[texId := h]))
  }

  /** Result of the id-allocating overload: the id (or -1), the out-parameters, the new state. */
  datatype NewIdResult = NewIdResult(id: int, width: int, height: int, reg: Registry)

  /**
   * LoadTexture(filename, width, height): always consumes one id from generateId,
   * loads into it, and returns it on success or -1 on failure.
   */
  function LoadTextureNewId(r: Registry, lib: ImageLib, filename: string, width: int, height: int): (res: NewIdResult)
    ensures res.reg.ids == r.ids + 1
    ensures res.id == -1 || res.id == r.ids
    ensures res.id == r.ids <==> OpenImage(lib, filename).Some? && Usable(OpenImage(lib, filename).value)
    ensures res.id == r.ids ==> r.ids in res.reg.texIds
    ensures res.id == -1 ==> res.reg == r.(ids := r.ids + 1)
    ensures res.id == r.ids && Valid(r) ==> res.reg.texIds[r.ids] !in r.live
    ensures res.id == r.ids ==> forall k :: k != r.ids ==>
              && (k in res.reg.texIds <==> k in r.texIds)
              && (k in r.texIds ==> res.reg.texIds[k] == r.texIds[k])
    ensures res.id == r.ids ==>
              res.reg.live == (if r.ids in r.texIds then r.live - {r.texIds[r.ids]} else r.live) + {res.reg.texIds[r.ids]}
    ensures res.reg.textures == r.textures && res.reg.atlasTexture == r.atlasTexture
    ensures res.reg.atlasWidth == r.atlasWidth && res.reg.atlasHeight == r.atlasHeight
    ensures Valid(r) ==> Valid(res.reg)
  {
    var (id, r1) := GenerateId(r);
    var load := LoadTexture(r1, lib, filename, id, width, height);
    NewIdResult(if load.ok then id else -1, load.width, load.height, load.reg)
  }

  /**
   * The two overloads share the id space: when the counter's next id was already
   * used explicitly, the id-allocating overload returns that id and deletes the
   * texture loaded there before.
   */
  lemma NewIdReplacesExplicit(r: Registry, lib: ImageLib, filename: string, width: int, height: int)
    requires Valid(r) && r.ids in r.texIds
    requires OpenImage(lib, filename).Some? && Usable(OpenImage(lib, filename).value)
    ensures var res := LoadTextureNewId(r, lib, filename, width, height);
            && res.id == r.ids
            && r.texIds[r.ids] !in res.reg.live
            && res.reg.texIds.Keys == r.texIds.Keys
  {
    var res := LoadTextureNewId(r, lib, filename, width, height);
    assert r.texIds[r.ids] in r.live;
    assert forall k :: k in res.reg.texIds <==> k in r.texIds;
  }

  /**
   * Two loads in a row through the id-allocating overload never hand out the
   * same id, whether or not the first one failed: the failed id is not reused.
   */
  lemma NewIdsNeverRepeat(r: Registry, lib: ImageLib, first: string, second: string, width: int, height: int)
    ensures var a := LoadTextureNewId(r, lib, first, width, height);
            var b := LoadTextureNewId(a.reg, lib, second, a.width, a.height);
            && b.reg.ids == r.ids + 2
            && (a.id != -1 ==> a.id != b.id)
            && (b.id != -1 ==> b.id == r.ids + 1)
  {
  }

  /**
   * UnloadTexture: when texID is mapped, delete its GL texture, drop the key and
   * return true; otherwise return false and change nothing.
   */
  function UnloadTexture(r: Registry, texId: nat): (res: (bool, Registry))
    ensures res.0 <==> texId in r.texIds
    ensures !res.0 ==> res.1 == r
    ensures res.0 ==> res.1.texIds == r.texIds - {texId}
    ensures res.0 ==> res.1.live == r.live - {r.texIds[texId]}
    ensures res.1.textures == r.textures && res.1.ids == r.ids
    ensures Valid(r) ==> Valid(res.1)
  {
    if texId in r.texIds then
      (true, DeleteTexture(r, r.texIds[texId]).(texIds := r.texIds - {texId}))
    else
      (false, r)
  }

  /** Unloading the same id twice: true then false, as long as it was mapped. */
  lemma UnloadTwice(r: Registry, texId: nat)
    requires texId in r.texIds
    ensures var (first, r1) := UnloadTexture(r, texId);
            var (second, r2) := UnloadTexture(r1, texId);
            first && !second && r2 == r1 && texId !in r2.texIds
  {
  }

  /**
   * Replace-on-reuse: loading into an id that already holds a texture deletes the
   * old texture and maps the id to the one generated after it, leaving every other
   * id on its texture. That the new name differs from the old one rests on names
   * never being reused (see README).
   */
  lemma LoadReplacesExisting(r: Registry, lib: ImageLib, filename: string, texId: nat, width: int, height: int)
    requires Valid(r) && texId in r.texIds
    requires OpenImage(lib, filename).Some? && Usable(OpenImage(lib, filename).value)
    ensures var res := LoadTexture(r, lib, filename, texId, width, height);
            && res.ok
            && res.reg.texIds[texId] != r.texIds[texId]
            && r.texIds[texId] !in res.reg.live
            && res.reg.texIds.Keys == r.texIds.Keys
            && (forall k :: k in r.texIds && k != texId ==> res.reg.texIds[k] == r.texIds[k])
            && res.reg.live == (r.live - {r.texIds[texId]}) + {res.reg.texIds[texId]}
  {
    var res := LoadTexture(r, lib, filename, texId, width, height);
    assert r.texIds[texId] in r.live;
    assert forall k :: k in res.reg.texIds <==> k in r.texIds;
  }

  /** A successful load followed by an unload of the same id removes exactly that id. */
  lemma LoadThenUnload(r: Registry, lib: ImageLib, filename: string, texId: nat, width: int, height: int)
    requires OpenImage(lib, filename).Some? && Usable(OpenImage(lib, filename).value)
    ensures var loaded := LoadTexture(r, lib, filename, texId, width, height).reg;
            var (ok, after) := UnloadTexture(loaded, texId);
            && ok
            && after.texIds == r.texIds - {texId}
  {
  }

  /**
   * UnloadAllTextures: every mapped texture is deleted and the map is cleared.
   * Only this post-state is modelled (see README).
   */
  function UnloadAllTextures(r: Registry): (res: Registry)
    ensures res.texIds == map[]
    ensures forall k :: k in r.texIds ==> r.texIds[k] !in res.live
    ensures res.live <= r.live
    ensures forall h :: h in r.live && (forall k :: k in r.texIds ==> r.texIds[k] != h) ==> h in res.live
    ensures res.textures == r.textures && res.ids == r.ids
    ensures Valid(r) ==> Valid(res)
  {
    r.(texIds := map[], live := r.live - r.texIds.Values)
  }

  // ---------------------------------------------------------------- atlas table

  /**
   * AddTexture(filename): reject a file name already in the table, an image that
   * does not load, or one with a zero side (the pixel pointer is not checked here).
   * Otherwise record (-1, -1, width, height) and grow the atlas by width and height.
   */
  function AddTexture(r: Registry, lib: ImageLib, filename: string): (res: (bool, Registry))
    ensures res.0 <==>
              && filename !in Names(r.textures)
              && OpenImage(lib, filename).Some?
              && OpenImage(lib, filename).value.width != 0
              && OpenImage(lib, filename).value.height != 0
    ensures !res.0 ==> res.1 == r
    ensures res.0 ==>
              var bm := OpenImage(lib, filename).value;
              && Find(res.1.textures, filename) == Some(Slot(-1, -1, bm.width, bm.height))
              && Names(res.1.textures) == Names(r.textures) + {filename}
              && res.1.atlasWidth == r.atlasWidth + bm.width
              && res.1.atlasHeight == r.atlasHeight + bm.height
    ensures forall n :: n != filename ==> Find(res.1.textures, n) == Find(r.textures, n)
    ensures res.1.texIds == r.texIds && res.1.live == r.live && res.1.ids == r.ids
    ensures Sorted(r.textures) ==> Sorted(res.1.textures)
    ensures Valid(r) ==> Valid(res.1)
  {
    if Find(r.textures, filename).Some? then (false, r)
    else
      match OpenImage(lib, filename)
      case None => (false, r)
      case Some(bm) =>
        if bm.width == 0 || bm.height == 0 then (false, r)
        else
          (true, r.(textures := Insert(r.textures, Entry(filename, Slot(-1, -1, bm.width, bm.height))),
                    atlasWidth := r.atlasWidth + bm.width,
                    atlasHeight := r.atlasHeight + bm.height))
  }

  /** Atlas width and height are the sums of the sides of the images added, starting from 0. */
  lemma {:induction false} AtlasSizeIsSumOfSides(lib: ImageLib, files: seq<string>)
    ensures var r := AddAll(New(), lib, files);
            r.atlasWidth == SumWidths(r.textures) && r.atlasHeight == SumHeights(r.textures)
    decreases |files|
  {
    if files != [] {
      var prev := AddAll(New(), lib, files[..|files| - 1]);
      AtlasSizeIsSumOfSides(lib, files[..|files| - 1]);
      var (ok, next) := AddTexture(prev, lib, files[|files| - 1]);
      assert AddAll(New(), lib, files) == next;
      if ok {
        var bm := OpenImage(lib, files[|files| - 1]).value;
        InsertSums(prev.textures, Entry(files[|files| - 1], Slot(-1, -1, bm.width, bm.height)));
      }
    }
  }

  /** AddTexture applied to each file name in turn. */
  function AddAll(r: Registry, lib: ImageLib, files: seq<string>): Registry
    decreases |files|
  {
    if files == [] then r
    else AddTexture(AddAll(r, lib, files[..|files| - 1]), lib, files[|files| - 1]).1
  }

  function SumWidths(t: Table): int
  {
    if t == [] then 0 else t[0].slot.width + SumWidths(t[1..])
  }

  function SumHeights(t: Table): int
  {
    if t == [] then 0 else t[0].slot.height + SumHeights(t[1..])
  }

  lemma {:induction false} InsertSums(t: Table, e: Entry)
    ensures SumWidths(Insert(t, e)) == SumWidths(t) + e.slot.width
    ensures SumHeights(Insert(t, e)) == SumHeights(t) + e.slot.height
    decreases |t|
  {
    if t != [] && !StringOrder.Less(e.name, t[0].name) {
      InsertSums(t[1..], e);
      assert Insert(t, e)[1..] == Insert(t[1..], e);
    } else {
      assert ([e] + t)[1..] == t;
    }
  }

  // ---------------------------------------------------------------- atlas build

  datatype Size = Size(width: nat, height: nat)

  /** Where the atlas packer placed a request (the x and y of texture_atlas_get_region). */
  datatype Region = Region(x: int, y: int)

  /**
   * texture_atlas_get_region as a function of the atlas size, the sizes already
   * requested from this atlas, and the size requested now.
   */
  type Packer = (int, int, seq<Size>, nat, nat) -> Region

  /** The image loads, has pixels, and neither side is zero. */
  predicate Decodes(lib: ImageLib, name: string)
  {
    OpenImage(lib, name).Some? && Usable(OpenImage(lib, name).value)
  }

  function ImageSize(lib: ImageLib, name: string): Size
  {
    match OpenImage(lib, name)
    case Some(bm) => Size(bm.width, bm.height)
    case None => Size(0, 0)
  }

  /** The image size of every entry, in table order. */
  function Sizes(lib: ImageLib, t: Table): (s: seq<Size>)
    ensures |s| == |t|
  {
    seq(|t|, k requires 0 <= k < |t| => ImageSize(lib, t[k].name))
  }

  /** The slot the build writes for entry k: the region the packer returns, and the image size. */
  function Placement(lib: ImageLib, pack: Packer, w: int, h: int, sizes: seq<Size>, name: string, k: nat): Slot
    requires Decodes(lib, name) && k <= |sizes|
  {
    var bm := OpenImage(lib, name).value;
    var region := pack(w, h, sizes[..k], bm.width, bm.height);
    Slot(region.x, region.y, bm.width, bm.height)
  }

  /**
   * The loop of CreateTextureAtlas from entry i on: stop at the first entry whose
   * image fails to decode, else overwrite the entry with its placement. Returns the
   * number of entries processed and the table.
   */
  function PackFrom(t: Table, lib: ImageLib, pack: Packer, w: int, h: int, sizes: seq<Size>, i: nat): (res: (nat, Table))
    requires i <= |t| == |sizes|
    ensures i <= res.0 <= |t| && |res.1| == |t|
    ensures forall k :: 0 <= k < |t| ==> res.1[k].name == t[k].name
    ensures forall k :: 0 <= k < |t| && !(i <= k < res.0) ==> res.1[k] == t[k]
    ensures forall k :: i <= k < res.0 ==>
              Decodes(lib, t[k].name) && res.1[k].slot == Placement(lib, pack, w, h, sizes, t[k].name, k)
    ensures res.0 < |t| ==> !Decodes(lib, t[res.0].name)
    ensures Sorted(t) ==> Sorted(res.1)
    decreases |t| - i
  {
    if i == |t| then (i, t)
    else if !Decodes(lib, t[i].name) then (i, t)
    else
      var t' := SetSlot(t, i, Placement(lib, pack, w, h, sizes, t[i].name, i));
      PackFrom(t', lib, pack, w, h, sizes, i + 1)
  }

  /** Result of CreateTextureAtlas: whether it ran to the end, how many entries it updated, the state. */
  datatype AtlasBuild = AtlasBuild(completed: bool, processed: nat, reg: Registry)

  /**
   * CreateTextureAtlas: pad both atlas sides by 2, then visit the table in key
   * order; return failure at the first image that does not decode (entries
   * already visited keep their new slots), else create the atlas GL texture.
   * The atlas is replaced before the loop, so after a failure the manager's
   * atlas has no GL texture.
   */
  function CreateTextureAtlas(r: Registry, lib: ImageLib, pack: Packer): (res: AtlasBuild)
    ensures res.reg.atlasWidth == r.atlasWidth + 2 && res.reg.atlasHeight == r.atlasHeight + 2
    ensures res.completed <==> forall k :: 0 <= k < |r.textures| ==> Decodes(lib, r.textures[k].name)
    ensures res.processed <= |r.textures| && (res.completed <==> res.processed == |r.textures|)
    ensures !res.completed ==> !Decodes(lib, r.textures[res.processed].name)
    ensures |res.reg.textures| == |r.textures|
    ensures forall k :: 0 <= k < |r.textures| ==> res.reg.textures[k].name == r.textures[k].name
    ensures forall k :: 0 <= k < res.processed ==>
              Decodes(lib, r.textures[k].name) && res.reg.textures[k].slot
              == Placement(lib, pack, r.atlasWidth + 2, r.atlasHeight + 2, Sizes(lib, r.textures), r.textures[k].name, k)
    ensures forall k :: res.processed <= k < |r.textures| ==> res.reg.textures[k] == r.textures[k]
    ensures res.reg.texIds == r.texIds && res.reg.ids == r.ids
    ensures res.completed ==> res.reg.atlasTexture.Some?
    ensures res.completed && Valid(r) ==> res.reg.atlasTexture.value !in r.live
    ensures !res.completed ==> res.reg.live == r.live && res.reg.atlasTexture.None?
    ensures Sorted(r.textures) ==> Sorted(res.reg.textures)
    ensures Valid(r) ==> Valid(res.reg)
  {
    var w := r.atlasWidth + 2;
    var h := r.atlasHeight + 2;
    var (n, t) := PackFrom(r.textures, lib, pack, w, h, Sizes(lib, r.textures), 0);
    var r1 := r.(textures := t, atlasWidth := w, atlasHeight := h);
    if n < |t| then AtlasBuild(false, n, r1.(atlasTexture := None))
    else
      var (tex, r2) := GenTexture(r1);
      AtlasBuild(true, n, r2.(atlasTexture := Some(tex)))
  }

  /**
   * Registering an image and then building the atlas: the image's slot carries
   * the image's own width and height at the position the packer chose.
   */
  lemma AddThenBuild(r: Registry, lib: ImageLib, pack: Packer, filename: string)
    requires Valid(r)
    requires AddTexture(r, lib, filename).0
    ensures var added := AddTexture(r, lib, filename).1;
            var built := CreateTextureAtlas(added, lib, pack);
            built.completed ==>
              && Find(built.reg.textures, filename).Some?
              && Find(built.reg.textures, filename).value.width == ImageSize(lib, filename).width
              && Find(built.reg.textures, filename).value.height == ImageSize(lib, filename).height
  {
    var added := AddTexture(r, lib, filename).1;
    var built := CreateTextureAtlas(added, lib, pack);
    if built.completed {
      assert Sorted(added.textures) by {
        assert Valid(r);
      }
      var k := NameIndex(added.textures, filename);
      FindAt(built.reg.textures, k);
    }
  }

  // ---------------------------------------------------------------- the single instance

  /** The static instance pointer: null, or the one manager. */
  datatype Process = Process(instance: Option<Registry>)

  /** Inst(): create the manager on first use, return the existing one afterwards. */
  function Inst(p: Process): (res: (Process, Registry))
    ensures res.0.instance == Some(res.1)
    ensures p.instance.Some? ==> res == (p, p.instance.value)
    ensures p.instance.None? ==> res.1 == New()
  {
    match p.instance
    case Some(m) => (p, m)
    case None => (Process(Some(New())), New())
  }

  /**
   * Inst() hands out a pointer to the one manager, so a change made through it is
   * seen by every later Inst(). The model holds the manager by value: a caller
   * that changes it stores the new state back into the instance.
   */
  function Store(p: Process, m: Registry): (res: Process)
    requires p.instance.Some?
    ensures Inst(res) == (res, m)
  {
    Process(Some(m))
  }

  /** A texture loaded through the manager Inst() returns is there at the next Inst(). */
  lemma LoadSeenByNextInst(p: Process, lib: ImageLib, filename: string, texId: nat, width: int, height: int)
    requires OpenImage(lib, filename).Some? && Usable(OpenImage(lib, filename).value)
    ensures var (p1, m1) := Inst(p);
            var loaded := LoadTexture(m1, lib, filename, texId, width, height).reg;
            var (p2, m2) := Inst(Store(p1, loaded));
            && m2 == loaded
            && texId in m2.texIds
  {
  }

  /** Every later call of Inst() returns the same manager and changes nothing. */
  lemma InstReturnsSame(p: Process)
    ensures var (p1, m1) := Inst(p);
            var (p2, m2) := Inst(p1);
            p2 == p1 && m2 == m1
  {
  }

  /**
   * The destructor: unload every texture, then reset the instance pointer to
   * null. The second component is the manager's last state.
   */
  function Destroy(p: Process): (res: (Process, Registry))
    requires p.instance.Some?
    ensures res.0.instance.None? && res.1.texIds == map[]
  {
    (Process(None), UnloadAllTextures(p.instance.value))
  }

  /** After destruction, Inst() builds a new manager from scratch. */
  lemma InstAfterDestroy(p: Process)
    requires p.instance.Some?
    ensures Inst(Destroy(p).0).1 == New()
  {
  }
}
