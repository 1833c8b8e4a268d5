/** The layer-store locator: where an image's filesystem lives on disk for
    each storage driver, in the legacy layout (one directory per image id)
    and in the content-addressable one (diff ids -> chain id -> cache id).
    Engine queries are passed in as snapshots and the engine's metadata files
    as maps from path to content. */
module Locator {
  import opened Base
  import opened Paths
  import ChainId
  import Format

  /** The storage drivers the toolbelt knows, and any other name. */
  datatype Driver = Btrfs | Overlay | Overlay2 | Vfs | Aufs | Unknown(name: string)
  {
    /** The name the engine reports for the driver. */
    function Name(): string
    {
      match this
      case Btrfs => "btrfs"
      case Overlay => "overlay"
      case Overlay2 => "overlay2"
      case Vfs => "vfs"
      case Aufs => "aufs"
      case Unknown(n) => n
    }
  }

  const KnownDrivers: set<string> := {"btrfs", "overlay", "overlay2", "vfs", "aufs"}

  /** The driver an engine-reported name stands for. */
  function ParseDriver(name: string): (d: Driver)
    ensures d.Name() == name
    ensures d.Unknown? <==> name !in KnownDrivers
  {
    if name == "btrfs" then Btrfs
    else if name == "overlay" then Overlay
    else if name == "overlay2" then Overlay2
    else if name == "vfs" then Vfs
    else if name == "aufs" then Aufs
    else Unknown(name)
  }

  /** What `info()` and `version()` report: DockerRootDir, Driver, Version. */
  datatype EngineInfo = EngineInfo(rootDir: string, driver: string, version: string)

  /** What inspecting the image reports: its Id and the GraphDriver.Data
      fields LowerDir (empty when absent), UpperDir, WorkDir and RootDir. */
  datatype ImageInfo = ImageInfo(id: string, lowerDir: string, upperDir: string, workDir: string, rootDir: string)

  /** The engine's private files as the toolbelt reads them: the diff-id list
      of each image config, the cache-id file of each layer and the `link`
      file of each overlay2 layer, keyed by path. */
  datatype LayerStore = LayerStore(diffIds: map<string, seq<string>>, cacheIds: map<string, string>, links: map<string, string>)

  /** The library functions the toolbelt calls: SHA-256 and semver. */
  datatype Libs = Libs(sha256: ChainId.Sha256, semver: Format.Semver)

  /** `const [hashType, hash] = id.split(':')`; without a ':' `hash` is
      undefined and the `path.join` it feeds throws. */
  function HashParts(id: string): (r: Result<(string, string)>)
    ensures r.Err? <==> ':' !in id
    ensures r.Ok? ==> ':' !in r.value.0 && ':' !in r.value.1
    ensures r.Ok? ==> r.value.0 + ":" + r.value.1 <= id
  {
    SplitFields(id, ':');
    var parts := Split(id, ':');
    if |parts| < 2 then Err(MissingHashPart(id))
    else
      SplitJoin(id, ':');
      assert id == parts[0] + ":" + JoinWith(parts[1..], ':');
      Ok((parts[0], parts[1]))
  }


  /** An id `type:hash` splits into its two halves. */
  lemma HashPartsOfKey(hashType: string, hash: string)
    requires ':' !in hashType && ':' !in hash
    ensures HashParts(hashType + ":" + hash) == Ok((hashType, hash))
  {
    assert JoinWith([hashType, hash], ':') == hashType + ":" + hash;
    JoinSplit([hashType, hash], ':');
  }

  /** The image config that lists an image's diff ids (getDiffIds). */
  function DiffIdsPath(dkroot: string, driver: string, imageId: string): (r: Result<string>)
    ensures r.Err? <==> ':' !in imageId
    ensures r.Err? ==> r.error == MissingHashPart(imageId)
    ensures r.Ok? ==> dkroot + "/image/" + driver + "/imagedb/content/" <= r.value
  {
    var (hashType, hash) :- HashParts(imageId);
    Ok(Join(Join(Join(dkroot, "image/" + driver + "/imagedb/content"), hashType), hash))
  }

  /** The file that holds a layer's cache id (getCacheId). */
  function CacheIdPath(dkroot: string, driver: string, layerId: string): (r: Result<string>)
    ensures r.Err? <==> ':' !in layerId
    ensures r.Err? ==> r.error == MissingHashPart(layerId)
    ensures r.Ok? ==> dkroot + "/image/" + driver + "/layerdb/" <= r.value
    ensures r.Ok? ==> EndsWith(r.value, "/cache-id")
  {
    var (hashType, hash) :- HashParts(layerId);
    Ok(Join(Join(Join(Join(dkroot, "image/" + driver + "/layerdb"), hashType), hash), "cache-id"))
  }

  /** For an id `type:hash` the image config sits under the type and hash
      directories of the engine's image database. */
  lemma DiffIdsPathOfKey(dkroot: string, driver: string, hashType: string, hash: string)
    requires ':' !in hashType && ':' !in hash
    ensures DiffIdsPath(dkroot, driver, hashType + ":" + hash)
         == Ok(dkroot + "/image/" + driver + "/imagedb/content/" + hashType + "/" + hash)
  {
    HashPartsOfKey(hashType, hash);
    assert Join(Join(Join(dkroot, "image/" + driver + "/imagedb/content"), hashType), hash)
        == dkroot + "/image/" + driver + "/imagedb/content/" + hashType + "/" + hash;
  }

  /** For an id `type:hash` the cache-id file sits under the type and hash
      directories of the engine's layer database. */
  lemma CacheIdPathOfKey(dkroot: string, driver: string, hashType: string, hash: string)
    requires ':' !in hashType && ':' !in hash
    ensures CacheIdPath(dkroot, driver, hashType + ":" + hash)
         == Ok(dkroot + "/image/" + driver + "/layerdb/" + hashType + "/" + hash + "/cache-id")
  {
    HashPartsOfKey(hashType, hash);
    assert Join(Join(Join(Join(dkroot, "image/" + driver + "/layerdb"), hashType), hash), "cache-id")
        == dkroot + "/image/" + driver + "/layerdb/" + hashType + "/" + hash + "/cache-id";
  }

  /** Reads an image's diff ids: the content of its image config, or a
      read failure naming that file when it is missing. */
  function ReadDiffIds(store: LayerStore, dkroot: string, driver: string, imageId: string): (r: Result<seq<string>>)
    ensures DiffIdsPath(dkroot, driver, imageId).Err? ==> r == Err(MissingHashPart(imageId))
    ensures r.Ok? <==> DiffIdsPath(dkroot, driver, imageId).Ok? && DiffIdsPath(dkroot, driver, imageId).value in store.diffIds
    ensures r.Ok? ==> r.value == store.diffIds[DiffIdsPath(dkroot, driver, imageId).value]
  {
    var path :- DiffIdsPath(dkroot, driver, imageId);
    if path in store.diffIds then Ok(store.diffIds[path]) else Err(MetadataReadFailure(path))
  }

  /** Reads a layer's cache id: the content of its cache-id file, or a read
      failure naming that file when it is missing. */
  function ReadCacheId(store: LayerStore, dkroot: string, driver: string, layerId: string): (r: Result<string>)
    ensures CacheIdPath(dkroot, driver, layerId).Err? ==> r == Err(MissingHashPart(layerId))
    ensures r.Ok? <==> CacheIdPath(dkroot, driver, layerId).Ok? && CacheIdPath(dkroot, driver, layerId).value in store.cacheIds
    ensures r.Ok? ==> r.value == store.cacheIds[CacheIdPath(dkroot, driver, layerId).value]
  {
    var path :- CacheIdPath(dkroot, driver, layerId);
    if path in store.cacheIds then Ok(store.cacheIds[path]) else Err(MetadataReadFailure(path))
  }

  /** The cache ids of several layers, in order; the first failing read wins. */
  function ReadCacheIds(store: LayerStore, dkroot: string, driver: string, layerIds: seq<string>): (r: Result<seq<string>>)
    ensures r.Ok? ==> |r.value| == |layerIds|
    ensures r.Ok? ==> forall k :: 0 <= k < |layerIds| ==> ReadCacheId(store, dkroot, driver, layerIds[k]) == Ok(r.value[k])
    ensures r.Err? ==> exists k :: 0 <= k < |layerIds| && ReadCacheId(store, dkroot, driver, layerIds[k]) == Err(r.error)
    decreases |layerIds|
  {
    if |layerIds| == 0 then Ok([])
    else
      var first :- ReadCacheId(store, dkroot, driver, layerIds[0]);
      var rest :- ReadCacheIds(store, dkroot, driver, layerIds[1..]);
      Ok([first] + rest)
  }

  /** The last cache id read is the one of the last layer. */
  lemma ReadCacheIdsLast(store: LayerStore, dkroot: string, driver: string, layerIds: seq<string>)
    requires |layerIds| > 0 && ReadCacheIds(store, dkroot, driver, layerIds).Ok?
    ensures ReadCacheId(store, dkroot, driver, layerIds[|layerIds| - 1])
         == Ok(ReadCacheIds(store, dkroot, driver, layerIds).value[|layerIds| - 1])
  {
  }

  /** The cache id of an image's top layer: the chain id of all its diff ids,
      looked up in the layer database. */
  function ImageCacheId(libs: Libs, info: EngineInfo, image: ImageInfo, store: LayerStore): (r: Result<string>)
    ensures ReadDiffIds(store, info.rootDir, info.driver, image.id).Err?
            ==> r == Err(ReadDiffIds(store, info.rootDir, info.driver, image.id).error)
    ensures ReadDiffIds(store, info.rootDir, info.driver, image.id).Ok? ==>
            var diffIds := ReadDiffIds(store, info.rootDir, info.driver, image.id).value;
            |diffIds| == 1 ==> r == ReadCacheId(store, info.rootDir, info.driver, diffIds[0])
  {
    var diffIds :- ReadDiffIds(store, info.rootDir, info.driver, image.id);
    ReadCacheId(store, info.rootDir, info.driver, ChainId.CreateChainId(libs.sha256, diffIds))
  }

  /** imageRootDir: the directory holding the image's root filesystem. */
  function ImageRootDir(libs: Libs, info: EngineInfo, image: ImageInfo, store: LayerStore): (r: Result<string>)
    ensures !Format.UsesContentAddressableFormat(libs.semver, info.version) ==> r == Ok(image.id)
    ensures Format.UsesContentAddressableFormat(libs.semver, info.version) ==>
      match ImageCacheId(libs, info, image, store)
      case Err(e) => r == Err(e)
      case Ok(cacheId) =>
        match ParseDriver(info.driver)
        case Btrfs => r == Ok(Join(Join(info.rootDir, "btrfs/subvolumes"), cacheId))
        case Vfs => r == Ok(Join(Join(info.rootDir, "vfs/dir"), cacheId))
        case Aufs => r == Ok(Join(Join(info.rootDir, "aufs/diff"), cacheId))
        case Overlay => r == Ok(image.rootDir)
        case Overlay2 => r == Ok(image.upperDir)
        case Unknown(name) => r == Err(UnsupportedDriver(name))
  {
    if !Format.UsesContentAddressableFormat(libs.semver, info.version) then Ok(image.id)
    else
      var diffIds :- ReadDiffIds(store, info.rootDir, info.driver, image.id);
      var layerId := ChainId.CreateChainId(libs.sha256, diffIds);
      var destId :- ReadCacheId(store, info.rootDir, info.driver, layerId);
      match ParseDriver(info.driver)
      case Btrfs => Ok(Join(Join(info.rootDir, "btrfs/subvolumes"), destId))
      case Overlay => Ok(image.rootDir)
      case Overlay2 => Ok(image.upperDir)
      case Vfs => Ok(Join(Join(info.rootDir, "vfs/dir"), destId))
      case Aufs => Ok(Join(Join(info.rootDir, "aufs/diff"), destId))
      case Unknown(name) => Err(UnsupportedDriver(name))
  }

  /** The diff directory of one layer: `aufs/diff/<id>` or `overlay2/<id>/diff`. */
  function LayerDiffPath(dkroot: string, driver: Driver, layerId: string): (r: string)
    ensures dkroot + "/" <= r
    ensures driver == Aufs ==> EndsWith(r, "/aufs/diff/" + layerId)
    ensures driver != Aufs ==> EndsWith(r, "/overlay2/" + layerId + "/diff")
  {
    if driver == Aufs then Join(Join(dkroot, "aufs/diff"), layerId)
    else
      var tail := "/overlay2/" + layerId + "/diff";
      assert Join(Join(Join(dkroot, "overlay2"), layerId), "diff") == dkroot + tail;
      Join(Join(Join(dkroot, "overlay2"), layerId), "diff")
  }

  /** `s` in reverse order. */
  function Reversed(s: seq<string>): (r: seq<string>)
    ensures |r| == |s|
  {
    seq(|s|, i requires 0 <= i < |s| => s[|s| - 1 - i])
  }

  /** The directory-name ids of the image's layers, oldest first: the raw
      diff ids in the legacy layout, the cache ids of every prefix chain id
      otherwise. */
  function LayerIds(libs: Libs, info: EngineInfo, diffIds: seq<string>, store: LayerStore): (r: Result<seq<string>>)
    ensures !Format.UsesContentAddressableFormat(libs.semver, info.version) ==> r == Ok(diffIds)
    ensures Format.UsesContentAddressableFormat(libs.semver, info.version) && |diffIds| == 0 ==> r == Err(EmptyLayerList)
    ensures r.Ok? ==> |r.value| == |diffIds|
  {
    if !Format.UsesContentAddressableFormat(libs.semver, info.version) then Ok(diffIds)
    else if |diffIds| == 0 then Err(EmptyLayerList)
    else ReadCacheIds(store, info.rootDir, info.driver, ChainId.AllChainIds(libs.sha256, diffIds))
  }

  /** What diffPaths returns: an error for any driver but aufs and overlay2,
      otherwise a read error or one path per layer of the image. */
  function DiffPathsOf(libs: Libs, info: EngineInfo, image: ImageInfo, store: LayerStore): (r: Result<seq<string>>)
    ensures ParseDriver(info.driver) != Aufs && ParseDriver(info.driver) != Overlay2 ==> r == Err(UnsupportedOperation)
    ensures (ParseDriver(info.driver) == Aufs || ParseDriver(info.driver) == Overlay2)
            && ReadDiffIds(store, info.rootDir, info.driver, image.id).Err?
            ==> r == Err(ReadDiffIds(store, info.rootDir, info.driver, image.id).error)
    ensures r.Ok? ==> |r.value| == |ReadDiffIds(store, info.rootDir, info.driver, image.id).value|
  {
    var driver := ParseDriver(info.driver);
    if !(driver == Aufs || driver == Overlay2) then Err(UnsupportedOperation)
    else
      var diffIds :- ReadDiffIds(store, info.rootDir, info.driver, image.id);
      var ids :- LayerIds(libs, info, diffIds, store);
      var newestFirst := Reversed(ids);
      Ok(seq(|newestFirst|, k requires 0 <= k < |newestFirst| => LayerDiffPath(info.rootDir, driver, newestFirst[k])))
  }

  /** `ids.reverse()`: reverses the array in place. */
  method Reverse(a: array<string>)
    modifies a
    ensures a[..] == Reversed(old(a[..]))
  {
    var i := 0;
    while i < a.Length / 2
      invariant 0 <= i <= a.Length / 2
      invariant forall k :: 0 <= k < i ==> a[k] == old(a[a.Length - 1 - k]) && a[a.Length - 1 - k] == old(a[k])
      invariant forall k :: i <= k < a.Length - i ==> a[k] == old(a[k])
    {
      a[i], a[a.Length - 1 - i] := a[a.Length - 1 - i], a[i];
      i := i + 1;
    }
  }

  /** The `then` callback of diffPaths: the raw diff ids in the legacy
      layout, otherwise the cache ids of every prefix chain id, read in
      order. */
  method CollectLayerIds(libs: Libs, info: EngineInfo, diffIds: seq<string>, store: LayerStore)
    returns (r: Result<seq<string>>)
    ensures r == LayerIds(libs, info, diffIds, store)
  {
    if !Format.UsesContentAddressableFormat(libs.semver, info.version) {
      return Ok(diffIds);
    }
    if |diffIds| == 0 {
      return Err(EmptyLayerList);
    }
    var chainIds := ChainId.GetAllChainIds(libs.sha256, diffIds);
    r := ReadCacheIds(store, info.rootDir, info.driver, chainIds);
  }

  /** diffPaths: only for aufs and overlay2; reads the diff ids, turns them
      into cache ids in the content-addressable layout, reverses the list in
      place and maps each id to its layer's diff directory. */
  method DiffPaths(libs: Libs, info: EngineInfo, image: ImageInfo, store: LayerStore) returns (r: Result<seq<string>>)
    ensures r == DiffPathsOf(libs, info, image, store)
  {
    var driver := ParseDriver(info.driver);
    if !(driver == Aufs || driver == Overlay2) {
      return Err(UnsupportedOperation);
    }
    var read := ReadDiffIds(store, info.rootDir, info.driver, image.id);
    if read.Err? {
      return Err(read.error);
    }
    var layerIds := CollectLayerIds(libs, info, read.value, store);
    if layerIds.Err? {
      return Err(layerIds.error);
    }
    var ids := layerIds.value;
    var a := new string[|ids|](i requires 0 <= i < |ids| => ids[i]);
    assert a[..] == ids;
    Reverse(a);
    var newestFirst := a[..];
    r := Ok(seq(|newestFirst|, k requires 0 <= k < |newestFirst| => LayerDiffPath(info.rootDir, driver, newestFirst[k])));
  }

  /** diffPaths lists the layer ids newest first, each as its diff directory. */
  lemma DiffPathsReversesLayerIds(libs: Libs, info: EngineInfo, image: ImageInfo, store: LayerStore)
    requires DiffPathsOf(libs, info, image, store).Ok?
    ensures ParseDriver(info.driver) == Aufs || ParseDriver(info.driver) == Overlay2
    ensures ReadDiffIds(store, info.rootDir, info.driver, image.id).Ok?
    ensures LayerIds(libs, info, ReadDiffIds(store, info.rootDir, info.driver, image.id).value, store).Ok?
    ensures
      var ids := LayerIds(libs, info, ReadDiffIds(store, info.rootDir, info.driver, image.id).value, store).value;
      var paths := DiffPathsOf(libs, info, image, store).value;
      && |paths| == |ids|
      && forall k :: 0 <= k < |paths| ==>
           paths[k] == LayerDiffPath(info.rootDir, ParseDriver(info.driver), ids[|ids| - 1 - k])
  {
  }

  /** In the legacy layout diffPaths names each layer directory by its raw
      diff id, newest first. */
  lemma DiffPathsLegacy(libs: Libs, info: EngineInfo, image: ImageInfo, store: LayerStore)
    requires !Format.UsesContentAddressableFormat(libs.semver, info.version)
    requires DiffPathsOf(libs, info, image, store).Ok?
    ensures ReadDiffIds(store, info.rootDir, info.driver, image.id).Ok?
    ensures
      var diffIds := ReadDiffIds(store, info.rootDir, info.driver, image.id).value;
      var paths := DiffPathsOf(libs, info, image, store).value;
      && |paths| == |diffIds|
      && forall k :: 0 <= k < |paths| ==>
           paths[k] == LayerDiffPath(info.rootDir, ParseDriver(info.driver), diffIds[|diffIds| - 1 - k])
  {
    DiffPathsReversesLayerIds(libs, info, image, store);
  }

  /** In the content-addressable layout diffPaths gives entry k, for `n`
      diff ids, the directory of the cache id of prefix chain id `n - 1 - k`
      (the chain id of the oldest `n - k` layers): newest layer first, one
      entry per layer. */
  lemma DiffPathsContentAddressable(libs: Libs, info: EngineInfo, image: ImageInfo, store: LayerStore)
    requires Format.UsesContentAddressableFormat(libs.semver, info.version)
    requires DiffPathsOf(libs, info, image, store).Ok?
    ensures ReadDiffIds(store, info.rootDir, info.driver, image.id).Ok?
    ensures
      var diffIds := ReadDiffIds(store, info.rootDir, info.driver, image.id).value;
      var chains := ChainId.AllChainIds(libs.sha256, diffIds);
      var paths := DiffPathsOf(libs, info, image, store).value;
      && |paths| == |diffIds| > 0
      && forall k :: 0 <= k < |paths| ==>
           var cacheId := ReadCacheId(store, info.rootDir, info.driver, chains[|diffIds| - 1 - k]);
           cacheId.Ok? && paths[k] == LayerDiffPath(info.rootDir, ParseDriver(info.driver), cacheId.value)
  {
    DiffPathsReversesLayerIds(libs, info, image, store);
    var diffIds := ReadDiffIds(store, info.rootDir, info.driver, image.id).value;
    var chains := ChainId.AllChainIds(libs.sha256, diffIds);
    var ids := LayerIds(libs, info, diffIds, store).value;
    assert ids == ReadCacheIds(store, info.rootDir, info.driver, chains).value;
  }

  /** In the content-addressable layout, a btrfs, vfs or aufs image's root
      directory is that driver's directory entry named by the cache id of
      the chain id of all the image's diff ids, or that cache-id read's
      error. */
  lemma ImageRootDirOfDiffIds(libs: Libs, info: EngineInfo, image: ImageInfo, store: LayerStore, diffIds: seq<string>)
    requires Format.UsesContentAddressableFormat(libs.semver, info.version)
    requires ReadDiffIds(store, info.rootDir, info.driver, image.id) == Ok(diffIds)
    requires ParseDriver(info.driver) in {Btrfs, Vfs, Aufs}
    ensures
      var dir := match ParseDriver(info.driver)
                 case Btrfs => "btrfs/subvolumes"
                 case Vfs => "vfs/dir"
                 case _ => "aufs/diff";
      var cacheId := ReadCacheId(store, info.rootDir, info.driver, ChainId.CreateChainId(libs.sha256, diffIds));
      ImageRootDir(libs, info, image, store)
        == if cacheId.Err? then Err(cacheId.error) else Ok(Join(Join(info.rootDir, dir), cacheId.value))
  {
  }

  /** In the content-addressable layout the cache id imageRootDir looks up
      is the newest of the layer ids diffPaths uses. */
  lemma ImageCacheIdIsNewestLayerId(libs: Libs, info: EngineInfo, image: ImageInfo, store: LayerStore)
    requires Format.UsesContentAddressableFormat(libs.semver, info.version)
    requires ReadDiffIds(store, info.rootDir, info.driver, image.id).Ok?
    requires LayerIds(libs, info, ReadDiffIds(store, info.rootDir, info.driver, image.id).value, store).Ok?
    ensures
      var ids := LayerIds(libs, info, ReadDiffIds(store, info.rootDir, info.driver, image.id).value, store).value;
      |ids| > 0 && ImageCacheId(libs, info, image, store) == Ok(ids[|ids| - 1])
  {
    var diffIds := ReadDiffIds(store, info.rootDir, info.driver, image.id).value;
    assert |diffIds| > 0;
    var chains := ChainId.AllChainIds(libs.sha256, diffIds);
    var top := ChainId.CreateChainId(libs.sha256, diffIds);
    assert chains[|chains| - 1] == top;
    assert LayerIds(libs, info, diffIds, store) == ReadCacheIds(store, info.rootDir, info.driver, chains);
    ReadCacheIdsLast(store, info.rootDir, info.driver, chains);
    assert ImageCacheId(libs, info, image, store) == ReadCacheId(store, info.rootDir, info.driver, top);
  }

  /** For aufs in the content-addressable layout, imageRootDir is the newest
      entry of diffPaths: the image's root directory is its top layer's diff. */
  lemma AufsRootIsNewestDiffPath(libs: Libs, info: EngineInfo, image: ImageInfo, store: LayerStore)
    requires ParseDriver(info.driver) == Aufs
    requires Format.UsesContentAddressableFormat(libs.semver, info.version)
    requires DiffPathsOf(libs, info, image, store).Ok?
    ensures |DiffPathsOf(libs, info, image, store).value| > 0
    ensures ImageRootDir(libs, info, image, store) == Ok(DiffPathsOf(libs, info, image, store).value[0])
  {
    DiffPathsReversesLayerIds(libs, info, image, store);
    ImageCacheIdIsNewestLayerId(libs, info, image, store);
  }

  /** `tmp-<hash>-<suffix>` (getRandomFileName), the random suffix passed in;
      an id without ':' gives the text "undefined" for the hash. */
  function RandomFileName(imageId: string, suffix: string): (r: string)
    ensures ':' !in imageId ==> r == "tmp-undefined-" + suffix
    ensures "tmp-" <= r && EndsWith(r, "-" + suffix)
  {
    SplitFields(imageId, ':');
    var parts := Split(imageId, ':');
    "tmp-" + (if |parts| >= 2 then parts[1] else "undefined") + "-" + suffix
  }

  /** The mount directory name of `type:hash` embeds the hash and the suffix. */
  lemma RandomFileNameOfKey(hashType: string, hash: string, suffix: string)
    requires ':' !in hashType && ':' !in hash
    ensures RandomFileName(hashType + ":" + hash, suffix) == "tmp-" + hash + "-" + suffix
  {
    HashPartsOfKey(hashType, hash);
  }
}
