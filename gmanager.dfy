// GManager.cs: the primitive store. Lines and triangles are kept in a
// growable array of `VInfo` entries, each tagged with the id of the object
// that was active when it was added; objects are kept in a dictionary from
// id to object, and `DrawStorage` walks the entries with a one-entry cache of
// the last object looked up.
module GManagers {
  import opened Numerics
  import opened Vectors
  import TMakers

  /** `EMPTY_HASH`: the id of the placeholder object and the initial tag. */
  const EmptyHash: int := -1

  /** `VInfo`: the vertices of one stored line or triangle and the id of its
      object. `Blank` is the zero-initialised struct that slots never written
      hold: no vertex array and id 0. */
  datatype VInfo = Blank | VInfo(vertices: seq<Vec4>, objHash: int)
  {
    /** The `ObjHash` field, 0 in a blank slot. */
    function ObjHash(): int
    {
      if Blank? then 0 else objHash
    }

    /** A stored entry holds a line or a triangle, as its two constructors
        build them. */
    predicate WellFormed()
    {
      Blank? || |vertices| == 2 || |vertices| == 3
    }

    /** `Split`: a line becomes the two halves at the homogeneous sum of its
        end points; a triangle becomes the three corner triangles and the
        middle one, cut at the sums of its corners. A blank slot has no vertex
        array to read. */
    function Split(): (r: Result<seq<VInfo>>)
      requires WellFormed()
      ensures Blank? <==> r.Err?
      ensures r.Err? ==> r.error == NullReference
      ensures r.Ok? ==> |r.value| == (if |vertices| == 2 then 2 else 4)
      ensures r.Ok? ==> forall k :: 0 <= k < |r.value| ==>
                r.value[k].VInfo? && r.value[k].objHash == objHash && |r.value[k].vertices| == |vertices|
    {
      if Blank? then Err(NullReference)
      else if |vertices| == 2 then
        var mid := vertices[0].Plus(vertices[1]);
        Ok([VInfo([vertices[0], mid], objHash), VInfo([mid, vertices[1]], objHash)])
      else
        var mid01 := vertices[0].Plus(vertices[1]);
        var mid02 := vertices[0].Plus(vertices[2]);
        var mid12 := vertices[1].Plus(vertices[2]);
        Ok([VInfo([vertices[0], mid01, mid02], objHash),
            VInfo([vertices[1], mid01, mid12], objHash),
            VInfo([vertices[2], mid02, mid12], objHash),
            VInfo([mid01, mid02, mid12], objHash)])
    }
  }

  /** The point halfway between the Cartesian images of two points. */
  function Midpoint(a: Vec4, b: Vec4): Vec3
  {
    Vec3((a.x + b.x) / 2.0, (a.y + b.y) / 2.0, (a.z + b.z) / 2.0)
  }

  /** The homogeneous sum of two finite points (w = 1) is, in Cartesian
      coordinates, their midpoint. */
  lemma HomogeneousMidpoint(a: Vec4, b: Vec4)
    requires a.w == 1.0 && b.w == 1.0
    ensures a.Plus(b).ToCartesian() == Midpoint(a, b)
  {
    var c := a.Plus(b).ToCartesian();
    assert c.x * 2.0 == a.x + b.x && c.y * 2.0 == a.y + b.y && c.z * 2.0 == a.z + b.z;
  }

  /** Every vertex of every piece of a split is a corner of the original or,
      for finite corners, lies at the midpoint of two distinct corners. */
  lemma SplitPieces(vi: VInfo)
    requires vi.VInfo? && vi.WellFormed()
    requires forall k :: 0 <= k < |vi.vertices| ==> vi.vertices[k].w == 1.0
    ensures vi.Split().Ok?
    ensures forall p, j :: 0 <= p < |vi.Split().value| && 0 <= j < |vi.vertices| ==>
              var v := vi.Split().value[p].vertices[j];
              v in vi.vertices ||
              exists a, b :: 0 <= a < b < |vi.vertices| && v.ToCartesian() == Midpoint(vi.vertices[a], vi.vertices[b])
  {
    var vs := vi.vertices;
    forall a, b | 0 <= a < b < |vs| {
      HomogeneousMidpoint(vs[a], vs[b]);
    }
    forall p, j | 0 <= p < |vi.Split().value| && 0 <= j < |vs|
      ensures var v := vi.Split().value[p].vertices[j];
              v in vs || exists a, b :: 0 <= a < b < |vs| && v.ToCartesian() == Midpoint(vs[a], vs[b])
    {
      var v := vi.Split().value[p].vertices[j];
      if v !in vs {
        if |vs| == 2 {
          assert v == vs[0].Plus(vs[1]);
          assert v.ToCartesian() == Midpoint(vs[0], vs[1]);
        } else if v == vs[0].Plus(vs[1]) {
          assert v.ToCartesian() == Midpoint(vs[0], vs[1]);
        } else if v == vs[0].Plus(vs[2]) {
          assert v.ToCartesian() == Midpoint(vs[0], vs[2]);
        } else {
          assert v == vs[1].Plus(vs[2]);
          assert v.ToCartesian() == Midpoint(vs[1], vs[2]);
        }
      }
    }
  }

  /** The object this file declares for the dictionary: it only holds a
      transform. */
  class GObject {
    var tmaker: TMakers.TMaker?

    constructor (tmaker: TMakers.TMaker?)
      ensures this.tmaker == tmaker
    {
      this.tmaker := tmaker;
    }
  }

  // ---------------------------------------------------------------------
  // add: the growable entry array
  // ---------------------------------------------------------------------

  /** C#'s unchecked 32-bit wrap-around of an integer. */
  function Wrap32(x: int): (w: int)
    ensures IntMin <= w <= IntMax
    ensures IntMin <= x <= IntMax ==> w == x
  {
    (x - IntMin) % 0x1_0000_0000 + IntMin
  }

  /** The size `add` resizes to: `Math.Min(int.MaxValue, n * 2)`, where the
      product wraps around in 32 bits. */
  function GrownSize(n: nat): (m: int)
    ensures n <= IntMax / 2 ==> m == 2 * n
    ensures IntMax / 2 < n <= IntMax ==> m < 0
  {
    var doubled := Wrap32(n * 2);
    if IntMax < doubled then IntMax else doubled
  }

  /** `Array.Resize`: the first entries kept, new slots blank. */
  function Resized(s: seq<VInfo>, n: nat): (t: seq<VInfo>)
    ensures |t| == n
    ensures forall k :: 0 <= k < n ==> t[k] == if k < |s| then s[k] else Blank
  {
    seq(n, k requires 0 <= k < n => if k < |s| then s[k] else Blank)
  }

  /** The entries, fill level and outcome after an `add`. */
  datatype Addition = Addition(slots: seq<VInfo>, fill: nat, result: Result<()>)

  /** `add(vi)`: when full, resize to the doubled size (a negative size
      throws); then write slot `fill` and increment `fill`. The increment
      happens before the store's bounds check, so a write past the end still
      counts. */
  function AddTo(s: seq<VInfo>, fill: nat, vi: VInfo): (a: Addition)
    ensures a.result.Err? ==> a.result.error == ArgumentOutOfRange || a.result.error == IndexOutOfRange
    ensures a.result == Err(ArgumentOutOfRange) ==> a == Addition(s, fill, a.result)
    ensures a.result != Err(ArgumentOutOfRange) ==> a.fill == fill + 1
  {
    var grow := fill >= |s|;
    if grow && GrownSize(|s|) < 0 then Addition(s, fill, Err(ArgumentOutOfRange))
    else
      var t := if grow then Resized(s, GrownSize(|s|)) else s;
      if fill < |t| then Addition(t[fill := vi], fill + 1, Ok(()))
      else Addition(t, fill + 1, Err(IndexOutOfRange))
  }

  /** `add` appends: while the array's length is within half of `int`'s
      range and the fill level within the array, the entry lands at the
      old fill level, the live entries before it are kept, and the fill
      level grows by one. */
  lemma AddAppends(s: seq<VInfo>, fill: nat, vi: VInfo)
    requires 0 < |s| <= IntMax / 2 && fill <= |s|
    ensures AddTo(s, fill, vi).result == Ok(())
    ensures AddTo(s, fill, vi).slots[..fill] == s[..fill]
    ensures AddTo(s, fill, vi).slots[fill] == vi
    ensures AddTo(s, fill, vi).fill == fill + 1
    ensures fill == |s| ==> |AddTo(s, fill, vi).slots| == 2 * |s|
  {
    var a := AddTo(s, fill, vi);
    if fill == |s| {
      var t := Resized(s, GrownSize(|s|));
      assert t[..fill] == s[..fill];
    }
  }

  /** With capacity 0 the doubled size is 0 again: the write fails, the
      fill level still increments and the array stays empty. */
  lemma AddToEmptyFails(fill: nat, vi: VInfo)
    ensures AddTo([], fill, vi) == Addition([], fill + 1, Err(IndexOutOfRange))
  {
    assert Resized([], 0) == [];
  }

  // ---------------------------------------------------------------------
  // RemoveObjectByHash
  // ---------------------------------------------------------------------

  /** The entries, fill level and outcome after the removal loop. */
  datatype Removal = Removal(slots: seq<VInfo>, fill: int, ok: bool)

  /** The loop of `RemoveObjectByHash` from index `i`: a matching entry is
      overwritten with slot `fill` (one past the last live entry), the fill
      level drops by one and the same index is examined again. Reading slot
      `fill` past the end throws after the fill level has dropped. */
  function RemoveFrom(s: seq<VInfo>, fill: int, i: nat, hash: int): (r: Removal)
    requires i <= fill
    ensures |r.slots| == |s| && i <= r.fill <= fill
    decreases fill - i
  {
    if i == fill then Removal(s, fill, true)
    else if i >= |s| then Removal(s, fill, false)
    else if s[i].ObjHash() != hash then RemoveFrom(s, fill, i + 1, hash)
    else if fill >= |s| then Removal(s, fill - 1, false)
    else RemoveFrom(s[i := s[fill]], fill - 1, i, hash)
  }

  /** After a removal that completes, no live entry carries the removed id:
      every index below the final fill level was examined last with a
      different id. */
  lemma {:induction false} RemoveClears(s: seq<VInfo>, fill: int, i: nat, hash: int)
    requires i <= fill && i <= |s|
    requires forall k :: 0 <= k < i ==> s[k].ObjHash() != hash
    ensures var r := RemoveFrom(s, fill, i, hash);
            r.ok ==> r.fill <= |r.slots| && forall k :: 0 <= k < r.fill ==> r.slots[k].ObjHash() != hash
    decreases fill - i
  {
    if i == fill || i >= |s| {
    } else if s[i].ObjHash() != hash {
      RemoveClears(s, fill, i + 1, hash);
    } else if fill >= |s| {
    } else {
      var t := s[i := s[fill]];
      assert forall k :: 0 <= k < i ==> t[k] == s[k];
      RemoveClears(t, fill - 1, i, hash);
    }
  }

  /** Removing an object drops the last live entry instead of moving it:
      with the entries of objects 1 and 2 live and a blank spare slot,
      removing object 1 leaves the blank slot as the only live entry, and
      object 2's entry is lost. */
  lemma RemoveDropsLastEntry(a: seq<Vec4>, b: seq<Vec4>)
    ensures RemoveFrom([VInfo(a, 1), VInfo(b, 2), Blank], 2, 0, 1)
         == Removal([Blank, VInfo(b, 2), Blank], 1, true)
  {
    var s := [VInfo(a, 1), VInfo(b, 2), Blank];
    assert s[0 := s[2]] == [Blank, VInfo(b, 2), Blank];
  }

  // ---------------------------------------------------------------------
  // DrawStorage
  // ---------------------------------------------------------------------

  /** One iteration of `DrawStorage`: the id and object whose transform is
      applied to the entry's vertices before they are rasterized. */
  datatype DrawCall = DrawCall(hash: int, obj: GObject, vertices: seq<Vec4>)

  /** The loop of `DrawStorage` from index `i` with the cache holding
      `cacheHash` and `cacheObject`: the dictionary is consulted only when
      the entry's id differs from the cached one. A blank entry, a null
      object and an object without a transformation maker all throw a
      null reference. */
  function DrawFrom(s: seq<VInfo>, fill: int, objs: map<int, GObject?>, i: nat,
                    cacheHash: int, cacheObject: GObject?): (r: Result<seq<DrawCall>>)
    reads objs.Values, cacheObject
    ensures r.Ok? ==> |r.value| == (if i < fill then fill - i else 0)
    decreases fill - i
  {
    if i >= fill then Ok([])
    else if i >= |s| then Err(IndexOutOfRange)
    else
      var h := s[i].ObjHash();
      if h != cacheHash && h !in objs then Err(KeyNotFound)
      else
        var obj := if h != cacheHash then objs[h] else cacheObject;
        if s[i].Blank? || obj == null || obj.tmaker == null then Err(NullReference)
        else
          match DrawFrom(s, fill, objs, i + 1, h, obj)
          case Ok(rest) => Ok([DrawCall(h, obj, s[i].vertices)] + rest)
          case Err(e) => Err(e)
  }

  /** `DrawStorage`'s loop from its start: nothing cached, id -1. */
  function Draw(s: seq<VInfo>, fill: int, objs: map<int, GObject?>): Result<seq<DrawCall>>
    reads objs.Values
  {
    DrawFrom(s, fill, objs, 0, EmptyHash, null)
  }

  /** Entries `i` to `fill` exist, are written, and name a present,
      non-null object that holds a transformation maker. */
  predicate Drawable(s: seq<VInfo>, fill: int, objs: map<int, GObject?>, i: nat)
    reads objs.Values
  {
    forall k :: i <= k < fill ==> DrawableAt(s, objs, k)
  }

  /** Entry `k` exists, is written, and names a present, non-null object
      that holds a transformation maker. */
  predicate DrawableAt(s: seq<VInfo>, objs: map<int, GObject?>, k: int)
    reads objs.Values
  {
    0 <= k < |s| && s[k].VInfo? && s[k].objHash in objs && objs[s[k].objHash] != null &&
    objs[s[k].objHash].tmaker != null
  }

  /** The call an entry leads to when looked up directly. */
  predicate DrawsEntry(s: seq<VInfo>, objs: map<int, GObject?>, k: int, c: DrawCall)
    reads objs.Values
  {
    0 <= k < |s| && s[k].VInfo? && s[k].objHash in objs && objs[s[k].objHash] != null &&
    c == DrawCall(s[k].objHash, objs[s[k].objHash], s[k].vertices)
  }

  /** Once the cache agrees with the dictionary, the cache is invisible: the
      loop succeeds exactly on drawable entries and draws each with its own
      object. */
  lemma {:induction false} DrawCached(s: seq<VInfo>, fill: int, objs: map<int, GObject?>, i: nat,
                                      cacheHash: int, cacheObject: GObject?)
    requires cacheHash in objs && cacheObject == objs[cacheHash]
    ensures DrawFrom(s, fill, objs, i, cacheHash, cacheObject).Ok? <==> Drawable(s, fill, objs, i)
    ensures var r := DrawFrom(s, fill, objs, i, cacheHash, cacheObject);
            r.Ok? ==> forall k :: 0 <= k < |r.value| ==> DrawsEntry(s, objs, i + k, r.value[k])
    decreases fill - i
  {
    if i < fill && |s| <= i {
      assert !DrawableAt(s, objs, i);
    } else if i < fill {
      var h := s[i].ObjHash();
      assert Drawable(s, fill, objs, i) <==> DrawableAt(s, objs, i) && Drawable(s, fill, objs, i + 1);
      if h == cacheHash || h in objs {
        var obj := if h != cacheHash then objs[h] else cacheObject;
        DrawCached(s, fill, objs, i + 1, h, obj);
        var r := DrawFrom(s, fill, objs, i, cacheHash, cacheObject);
        if r.Ok? {
          var rest := DrawFrom(s, fill, objs, i + 1, h, obj).value;
          assert r.value == [DrawCall(h, obj, s[i].vertices)] + rest;
          forall k | 0 <= k < |r.value| ensures DrawsEntry(s, objs, i + k, r.value[k]) {
            if k > 0 {
              assert r.value[k] == rest[k - 1];
            }
          }
        }
      }
    }
  }

  /** `DrawStorage` succeeds exactly when every live entry is drawable and
      the first one is not tagged -1: that entry matches the initial cache
      id, so the null initial object is used. On success it draws every
      live entry, in order, with the object its id names. */
  lemma DrawStorageCalls(s: seq<VInfo>, fill: int, objs: map<int, GObject?>)
    ensures Draw(s, fill, objs).Ok? <==>
              Drawable(s, fill, objs, 0) && (0 < fill && 0 < |s| ==> s[0].ObjHash() != EmptyHash)
    ensures Draw(s, fill, objs).Ok? ==>
              |Draw(s, fill, objs).value| == (if 0 < fill then fill else 0) &&
              forall k :: 0 <= k < |Draw(s, fill, objs).value| ==> DrawsEntry(s, objs, k, Draw(s, fill, objs).value[k])
    ensures 0 < fill && 0 < |s| && s[0].VInfo? && s[0].objHash == EmptyHash ==>
              Draw(s, fill, objs) == Err(NullReference)
  {
    if 0 < fill && |s| == 0 {
      assert !DrawableAt(s, objs, 0);
    } else if 0 < fill {
      var h := s[0].ObjHash();
      assert Drawable(s, fill, objs, 0) <==> DrawableAt(s, objs, 0) && Drawable(s, fill, objs, 1);
      if h != EmptyHash && h in objs {
        var obj := objs[h];
        DrawCached(s, fill, objs, 1, h, obj);
        var r := Draw(s, fill, objs);
        if r.Ok? {
          var rest := DrawFrom(s, fill, objs, 1, h, obj).value;
          assert r.value == [DrawCall(h, obj, s[0].vertices)] + rest;
          forall k | 0 <= k < |r.value| ensures DrawsEntry(s, objs, k, r.value[k]) {
            if k > 0 {
              assert r.value[k] == rest[k - 1];
            }
          }
        }
      }
    }
  }

  /** Vertices added before any object is added carry the placeholder's id
      -1, and drawing them reaches the null initial object. */
  lemma DrawBeforeAddGObject(vs: seq<Vec4>, e: GObject)
    ensures Draw([VInfo(vs, EmptyHash)], 1, map[EmptyHash := e]) == Err(NullReference)
  {
  }

  /** After `Clear`, vertices added before the next object carry id 0, which
      the dictionary does not hold. */
  lemma DrawAfterClear(vs: seq<Vec4>, e: GObject)
    ensures Draw([VInfo(vs, 0)], 1, map[EmptyHash := e]) == Err(KeyNotFound)
  {
  }

  /** An object found under an entry's id that holds no transformation
      maker throws when its transform is applied. */
  lemma DrawWithoutMaker(vs: seq<Vec4>, h: int, o: GObject)
    requires h != EmptyHash && o.tmaker == null
    ensures Draw([VInfo(vs, h)], 1, map[h := o]) == Err(NullReference)
  {
  }

  /** The continuation of `DrawStorage`'s loop after the calls made so far. */
  function Then(calls: seq<DrawCall>, r: Result<seq<DrawCall>>): Result<seq<DrawCall>>
  {
    match r
    case Ok(rest) => Ok(calls + rest)
    case Err(e) => Err(e)
  }

  /** One more call made before the rest. */
  lemma ThenPrepend(calls: seq<DrawCall>, c: DrawCall, r: Result<seq<DrawCall>>)
    ensures Then(calls, match r case Ok(rest) => Ok([c] + rest) case Err(e) => Err(e)) == Then(calls + [c], r)
  {
    if r.Ok? {
      assert calls + ([c] + r.value) == (calls + [c]) + r.value;
    }
  }

  // ---------------------------------------------------------------------
  // GManager
  // ---------------------------------------------------------------------

  class GManager {
    var vertexStorage: array<VInfo>
    var fillLevel: nat
    var activeHash: int
    var objectStorage: map<int, GObject?>

    /** The active id is a C# `int`. */
    predicate Valid()
      reads this
    {
      IntMin <= activeHash <= IntMax
    }

    /** `GManager(initialStorageSize)`: blank storage of that size, active id
        -1 and a dictionary holding only a fresh placeholder under -1. A
        negative size throws in the array allocation (see `Create`). */
    constructor (initialStorageSize: nat)
      ensures Valid() && fresh(vertexStorage)
      ensures vertexStorage[..] == Resized([], initialStorageSize)
      ensures fillLevel == 0 && activeHash == EmptyHash
      ensures objectStorage.Keys == {EmptyHash}
      ensures objectStorage[EmptyHash] != null && fresh(objectStorage[EmptyHash])
    {
      vertexStorage := new VInfo[initialStorageSize](_ => Blank);
      fillLevel := 0;
      activeHash := EmptyHash;
      var tm := new TMakers.TMaker();
      var placeholder := new GObject(tm);
      objectStorage := map[EmptyHash := placeholder];
    }

    /** `new GManager(initialStorageSize)` for any size: a negative one
        throws before anything else happens. */
    static method Create(initialStorageSize: int) returns (r: Result<GManager>)
      ensures r.Err? <==> initialStorageSize < 0
      ensures r.Err? ==> r.error == Overflow
      ensures r.Ok? ==> fresh(r.value) && fresh(r.value.vertexStorage) && r.value.Valid() &&
                        r.value.vertexStorage[..] == Resized([], initialStorageSize) &&
                        r.value.fillLevel == 0 && r.value.activeHash == EmptyHash &&
                        r.value.objectStorage.Keys == {EmptyHash}
    {
      if initialStorageSize < 0 {
        return Err(Overflow);
      }
      var g := new GManager(initialStorageSize);
      return Ok(g);
    }

    /** `GetObjectByHash`: the dictionary's indexer. */
    method GetObjectByHash(hash: int) returns (r: Result<GObject?>)
      ensures hash in objectStorage <==> r.Ok?
      ensures r.Ok? ==> r.value == objectStorage[hash]
      ensures r.Err? ==> r.error == KeyNotFound
    {
      if hash !in objectStorage {
        return Err(KeyNotFound);
      }
      return Ok(objectStorage[hash]);
    }

    /** `AddGObject`: increments the active id (wrapping around at
        `int.MaxValue`) and binds the object to it; a bound id throws, after
        the increment. */
    method AddGObject(obj: GObject?) returns (r: Result<()>)
      requires Valid()
      modifies this
      ensures Valid()
      ensures activeHash == Wrap32(old(activeHash) + 1)
      ensures r.Ok? <==> activeHash !in old(objectStorage)
      ensures r.Err? ==> r.error == DuplicateKey && objectStorage == old(objectStorage)
      ensures r.Ok? ==> objectStorage == old(objectStorage)[activeHash := obj]
      ensures vertexStorage == old(vertexStorage) && fillLevel == old(fillLevel)
    {
      activeHash := Wrap32(activeHash + 1);
      if activeHash in objectStorage {
        return Err(DuplicateKey);
      }
      objectStorage := objectStorage[activeHash := obj];
      return Ok(());
    }

    /** `add`: see `AddTo`. `Array.Resize` to the length the array already
        has keeps the array itself. */
    method Add(vi: VInfo) returns (r: Result<()>)
      modifies this, vertexStorage
      ensures var a := AddTo(old(vertexStorage[..]), old(fillLevel), vi);
              vertexStorage[..] == a.slots && fillLevel == a.fill && r == a.result
      ensures vertexStorage == old(vertexStorage) || fresh(vertexStorage)
      ensures activeHash == old(activeHash) && objectStorage == old(objectStorage)
    {
      if fillLevel >= vertexStorage.Length {
        var size := GrownSize(vertexStorage.Length);
        if size < 0 {
          return Err(ArgumentOutOfRange);
        }
        if size != vertexStorage.Length {
          var prev := vertexStorage;
          vertexStorage := new VInfo[size](k requires 0 <= k < size reads prev =>
                                             if k < prev.Length then prev[k] else Blank);
        } else {
          assert vertexStorage[..] == Resized(vertexStorage[..], size);
        }
      }
      var f := fillLevel;
      fillLevel := f + 1;
      if f >= vertexStorage.Length {
        return Err(IndexOutOfRange);
      }
      vertexStorage[f] := vi;
      return Ok(());
    }

    /** `AddVertices(v1, v2, v3)`: stores a triangle tagged with the active
        id. */
    method AddVertices(v1: Vec4, v2: Vec4, v3: Vec4) returns (r: Result<()>)
      modifies this, vertexStorage
      ensures var a := AddTo(old(vertexStorage[..]), old(fillLevel), VInfo([v1, v2, v3], old(activeHash)));
              vertexStorage[..] == a.slots && fillLevel == a.fill && r == a.result
      ensures vertexStorage == old(vertexStorage) || fresh(vertexStorage)
      ensures activeHash == old(activeHash) && objectStorage == old(objectStorage)
    {
      r := Add(VInfo([v1, v2, v3], activeHash));
    }

    /** `AddVertices(v1, v2)`: stores a line tagged with the active id. */
    method AddVerticesLine(v1: Vec4, v2: Vec4) returns (r: Result<()>)
      modifies this, vertexStorage
      ensures var a := AddTo(old(vertexStorage[..]), old(fillLevel), VInfo([v1, v2], old(activeHash)));
              vertexStorage[..] == a.slots && fillLevel == a.fill && r == a.result
      ensures vertexStorage == old(vertexStorage) || fresh(vertexStorage)
      ensures activeHash == old(activeHash) && objectStorage == old(objectStorage)
    {
      r := Add(VInfo([v1, v2], activeHash));
    }

    /** `RemoveObjectByHash`: unbinds the id, then runs the removal loop
        (see `RemoveFrom`). */
    method RemoveObjectByHash(hash: int) returns (r: Result<()>)
      modifies this, vertexStorage
      ensures objectStorage == old(objectStorage) - {hash}
      ensures var rm := RemoveFrom(old(vertexStorage[..]), old(fillLevel), 0, hash);
              vertexStorage[..] == rm.slots && fillLevel == rm.fill && r.Ok? == rm.ok
      ensures r.Err? ==> r.error == IndexOutOfRange
      ensures vertexStorage == old(vertexStorage) && activeHash == old(activeHash)
    {
      objectStorage := objectStorage - {hash};
      var vs := vertexStorage;
      ghost var goal := RemoveFrom(vs[..], fillLevel, 0, hash);
      var i := 0;
      while i < fillLevel
        invariant vertexStorage == vs && activeHash == old(activeHash)
        invariant objectStorage == old(objectStorage) - {hash}
        invariant i <= fillLevel && RemoveFrom(vs[..], fillLevel, i, hash) == goal
        decreases fillLevel - i
      {
        if i >= vs.Length {
          return Err(IndexOutOfRange);
        }
        if vs[i].ObjHash() == hash {
          var f := fillLevel;
          fillLevel := f - 1;
          if f >= vs.Length {
            return Err(IndexOutOfRange);
          }
          vs[i] := vs[f];
        } else {
          i := i + 1;
        }
      }
      return Ok(());
    }

    /** `DrawStorage`: the calls the loop makes, in order (see `DrawFrom`). */
    method DrawStorage() returns (r: Result<seq<DrawCall>>)
      ensures r == Draw(vertexStorage[..], fillLevel, objectStorage)
    {
      var cacheHash := EmptyHash;
      var cacheObject: GObject? := null;
      var calls: seq<DrawCall> := [];
      var i := 0;
      ghost var d := Draw(vertexStorage[..], fillLevel, objectStorage);
      assert d.Ok? ==> calls + d.value == d.value;
      assert Then(calls, d) == d;
      while i < fillLevel
        invariant i <= fillLevel
        invariant Then(calls, DrawFrom(vertexStorage[..], fillLevel, objectStorage, i, cacheHash, cacheObject))
               == Draw(vertexStorage[..], fillLevel, objectStorage)
        decreases fillLevel - i
      {
        if i >= vertexStorage.Length {
          return Err(IndexOutOfRange);
        }
        var stored := vertexStorage[i];
        if stored.ObjHash() != cacheHash {
          cacheHash := stored.ObjHash();
          if cacheHash !in objectStorage {
            return Err(KeyNotFound);
          }
          cacheObject := objectStorage[cacheHash];
        }
        if stored.Blank? || cacheObject == null || cacheObject.tmaker == null {
          return Err(NullReference);
        }
        ThenPrepend(calls, DrawCall(cacheHash, cacheObject, stored.vertices),
                    DrawFrom(vertexStorage[..], fillLevel, objectStorage, i + 1, cacheHash, cacheObject));
        calls := calls + [DrawCall(cacheHash, cacheObject, stored.vertices)];
        i := i + 1;
      }
      assert calls + [] == calls;
      return Ok(calls);
    }

    /** `Clear`: fill level 0, a dictionary holding only a fresh placeholder
        under -1, and active id 0, so the next object gets id 1. The entry
        array itself is kept. */
    method Clear()
      modifies this
      ensures Valid()
      ensures activeHash == 0 && fillLevel == 0
      ensures objectStorage.Keys == {EmptyHash}
      ensures objectStorage[EmptyHash] != null && fresh(objectStorage[EmptyHash])
      ensures vertexStorage == old(vertexStorage)
    {
      activeHash := 0;
      fillLevel := 0;
      var tm := new TMakers.TMaker();
      var placeholder := new GObject(tm);
      objectStorage := map[EmptyHash := placeholder];
    }
  }
}
