/**
  The image service of the photo list (`CollectionViewPhotoService`): an
  in-memory `[url: image]` map in front of a directory of image files in the
  caches directory, in front of a network fetch.

  The service is modelled as a value `Cache` and two steps:
  - `Resolve` is `getImage(atIndexPath:byUrl:)`: memory, then a fresh disk
    file, then a placeholder plus a load request;
  - `Complete` is the end of that load: a failed fetch or undecodable bytes
    change nothing; a decoded image fills both tiers and reloads its slot.
  Clocks, the file system and the image codec are parameters (`Env`, `Codecs`).
 */
module PhotoCache {
  import opened Common
  import UrlPath

  type Url = string

  /** A decoded `UIImage`; only its identity matters here. */
  datatype Image = Image(handle: nat)

  /** An image file: its contents and its modification time, in seconds. */
  datatype DiskFile = DiskFile(contents: Bytes, modified: int)

  /**
    `images` is the memory tier, keyed by the full URL string; `files` is the
    disk tier, keyed by the path of the file relative to the caches directory.
   */
  datatype Cache = Cache(images: map<Url, Image>, files: map<string, DiskFile>)

  /** The `IndexPath` of the collection-view cell asking for an image. */
  datatype Slot = Slot(section: int, item: int)

  /** What `getImage` hands back: the image, or the named placeholder asset. */
  datatype Shown = Picture(image: Image) | Placeholder(asset: string)

  /** A load started by `getImage` for one cell and one URL. */
  datatype LoadRequest = LoadRequest(slot: Slot, url: Url)

  /** The outcome of `Data(contentsOf:)` for the request's URL. */
  datatype Fetch = FetchFailed | Fetched(data: Bytes)

  /**
    The environment of one step: the current time in seconds, and whether
    `FileManager` reports a caches directory.
   */
  datatype Env = Env(now: int, hasCachesDirectory: bool)

  /**
    Foreign calls, as oracles: `UIImage(data:)` / `UIImage(contentsOfFile:)`,
    `pngData()`, and whether `URL(string:)` accepts a string.
   */
  datatype Codecs = Codecs(decode: Bytes -> Option<Image>,
                           pngData: Image -> Option<Bytes>,
                           isValidUrl: Url -> bool)

  /** Life time of an image file, in seconds (one hour). */
  const CacheLifeTime: int := 1 * 60 * 60

  /** Asset shown while an image is being loaded. */
  const LoadingAsset: string := "loadingBarSmile"

  datatype Lookup = Lookup(shown: Shown, cache: Cache, load: Option<LoadRequest>)

  datatype Completion = Completion(cache: Cache, reloaded: seq<Slot>)

  const Empty: Cache := Cache(map[], map[])

  /** `getFilePath(url:)`: nothing without a caches directory. */
  function FilePath(url: Url, env: Env): (path: Option<string>)
    ensures path.Some? <==> env.hasCachesDirectory
    ensures path.Some? ==> path.value == UrlPath.RelativePath(url)
  {
    if env.hasCachesDirectory then Some(UrlPath.RelativePath(url)) else None
  }

  /** A file counts while its age is at most the life time (a clock running
      backwards gives a negative age, which counts too). */
  predicate Fresh(file: DiskFile, now: int) {
    now - file.modified <= CacheLifeTime
  }

  /**
    `getImageFromFileCache(url:)` without its side effect: the image decoded
    from the URL's file, if that file exists, is fresh and decodes.
   */
  function ReadFile(cache: Cache, url: Url, env: Env, codecs: Codecs): (r: Option<Image>)
    ensures r.Some? <==>
              env.hasCachesDirectory
              && UrlPath.RelativePath(url) in cache.files
              && Fresh(cache.files[UrlPath.RelativePath(url)], env.now)
              && codecs.decode(cache.files[UrlPath.RelativePath(url)].contents).Some?
    ensures r.Some? ==> r == codecs.decode(cache.files[UrlPath.RelativePath(url)].contents)
  {
    match FilePath(url, env)
    case None => None
    case Some(path) =>
      if path in cache.files && Fresh(cache.files[path], env.now)
      then codecs.decode(cache.files[path].contents)
      else None
  }

  /**
    `getImage(atIndexPath:byUrl:)`. A memory hit returns the image and changes
    nothing; a disk hit returns the decoded file and stores it in memory under
    the full URL; otherwise the placeholder is returned and, if the string is
    a URL, exactly one load for (slot, url) is started. The disk tier is never
    written or cleaned here.
   */
  function Resolve(cache: Cache, slot: Slot, url: Url, env: Env, codecs: Codecs): (r: Lookup)
    ensures r.cache.files == cache.files
    ensures url in cache.images ==>
              r.shown == Picture(cache.images[url]) && r.cache == cache && r.load == None
    ensures url !in cache.images && ReadFile(cache, url, env, codecs).Some? ==>
              && r.shown == Picture(ReadFile(cache, url, env, codecs).value)
              && r.cache.images == cache.images[url := r.shown.image]
              && r.load == None
    ensures url !in cache.images && ReadFile(cache, url, env, codecs).None? ==>
              && r.shown == Placeholder(LoadingAsset)
              && r.cache == cache
              && (r.load.Some? <==> codecs.isValidUrl(url))
              && (r.load.Some? ==> r.load.value == LoadRequest(slot, url))
  {
    if url in cache.images then
      Lookup(Picture(cache.images[url]), cache, None)
    else
      match ReadFile(cache, url, env, codecs)
      case Some(image) =>
        Lookup(Picture(image), cache.(images := cache.images[url := image]), None)
      case None =>
        var load := if codecs.isValidUrl(url) then Some(LoadRequest(slot, url)) else None;
        Lookup(Placeholder(LoadingAsset), cache, load)
  }

  /**
    `saveImageToFileCache(url:image:)`: overwrites the URL's file with the PNG
    encoding, stamped with the current time; silently does nothing without a
    caches directory or PNG data.
   */
  function SaveFile(cache: Cache, url: Url, image: Image, env: Env, codecs: Codecs): (c: Cache)
    ensures c.images == cache.images
    ensures env.hasCachesDirectory && codecs.pngData(image).Some? ==>
              c.files == cache.files[UrlPath.RelativePath(url) :=
                                     DiskFile(codecs.pngData(image).value, env.now)]
    ensures !env.hasCachesDirectory || codecs.pngData(image).None? ==> c == cache
  {
    match FilePath(url, env)
    case None => cache
    case Some(path) =>
      match codecs.pngData(image)
      case None => cache
      case Some(png) => cache.(files := cache.files[path := DiskFile(png, env.now)])
  }

  /**
    The end of `loadImage(atIndexPath:byUrl:)`. A failed fetch or bytes that do
    not decode leave both tiers alone and reload nothing; a decoded image is
    stored in memory under the URL, reloads exactly the requesting slot, and is
    written to disk.
   */
  function Complete(cache: Cache, req: LoadRequest, fetch: Fetch, env: Env, codecs: Codecs): (c: Completion)
    ensures fetch.FetchFailed? ==> c == Completion(cache, [])
    ensures fetch.Fetched? && codecs.decode(fetch.data).None? ==> c == Completion(cache, [])
    ensures fetch.Fetched? && codecs.decode(fetch.data).Some? ==>
              && c.cache.images == cache.images[req.url := codecs.decode(fetch.data).value]
              && c.reloaded == [req.slot]
              && c.cache == SaveFile(cache.(images := c.cache.images), req.url,
                                     codecs.decode(fetch.data).value, env, codecs)
  {
    match fetch
    case FetchFailed => Completion(cache, [])
    case Fetched(data) =>
      match codecs.decode(data)
      case None => Completion(cache, [])
      case Some(image) =>
        var inMemory := cache.(images := cache.images[req.url := image]);
        Completion(SaveFile(inMemory, req.url, image, env, codecs), [req.slot])
  }

  /** An event reaching the service. */
  datatype Event =
    | GetImage(slot: Slot, url: Url)
    | LoadSucceeded(req: LoadRequest, data: Bytes)
    | LoadFailed(req: LoadRequest)

  /**
    One event applied to the cache; only the new state is kept. A lookup
    never touches the files; a failed or undecodable load changes nothing;
    a decoded load puts its image in memory under the requested URL and
    leaves every other URL's memory entry alone.
   */
  function Step(cache: Cache, e: Event, env: Env, codecs: Codecs): (r: Cache)
    ensures e.GetImage? ==> r.files == cache.files
    ensures e.GetImage? && e.url in cache.images ==> r == cache
    ensures e.LoadFailed? ==> r == cache
    ensures e.LoadSucceeded? && codecs.decode(e.data).None? ==> r == cache
    ensures e.LoadSucceeded? && codecs.decode(e.data).Some? ==>
              && e.req.url in r.images && r.images[e.req.url] == codecs.decode(e.data).value
              && forall u :: u in cache.images && u != e.req.url ==> u in r.images && r.images[u] == cache.images[u]
  {
    match e
    case GetImage(slot, url) => Resolve(cache, slot, url, env, codecs).cache
    case LoadSucceeded(req, data) => Complete(cache, req, Fetched(data), env, codecs).cache
    case LoadFailed(req) => Complete(cache, req, FetchFailed, env, codecs).cache
  }

  /** `images` only ever grows: the service never evicts. */
  predicate Grows(before: Cache, after: Cache) {
    && before.images.Keys <= after.images.Keys
    && before.files.Keys <= after.files.Keys
  }

  /** No step forgets an image or removes a file, so the memory map is unbounded. */
  lemma StepNeverEvicts(cache: Cache, e: Event, env: Env, codecs: Codecs)
    ensures Grows(cache, Step(cache, e, env, codecs))
    ensures |cache.images| <= |Step(cache, e, env, codecs).images|
  {
    var after := Step(cache, e, env, codecs);
    assert cache.images.Keys <= after.images.Keys;
    assert |cache.images.Keys| <= |after.images.Keys| by {
      SubsetCardinality(cache.images.Keys, after.images.Keys);
    }
  }

  lemma SubsetCardinality<T>(a: set<T>, b: set<T>)
    requires a <= b
    ensures |a| <= |b|
  {
    assert b == a + (b - a);
  }

  /** A failed load leaves both tiers exactly as they were. */
  lemma FailedLoadChangesNothing(cache: Cache, req: LoadRequest, env: Env, codecs: Codecs)
    ensures Step(cache, LoadFailed(req), env, codecs) == cache
  {
  }

  /**
    After a successful load, asking again for the same URL is a memory hit on
    the loaded image: no disk read and no new load.
   */
  lemma LoadThenHit(cache: Cache, req: LoadRequest, data: Bytes, slot: Slot,
                    env: Env, env': Env, codecs: Codecs)
    requires codecs.decode(data).Some?
    ensures var after := Complete(cache, req, Fetched(data), env, codecs).cache;
            var r := Resolve(after, slot, req.url, env', codecs);
            r.shown == Picture(codecs.decode(data).value) && r.load == None && r.cache == after
  {
  }

  /** A disk hit is promoted into memory, so the next lookup is a memory hit. */
  lemma DiskHitPromotes(cache: Cache, slot: Slot, slot': Slot, url: Url, env: Env, env': Env,
                        codecs: Codecs)
    requires url !in cache.images
    requires ReadFile(cache, url, env, codecs).Some?
    ensures var r := Resolve(cache, slot, url, env, codecs);
            var r' := Resolve(r.cache, slot', url, env', codecs);
            r'.shown == r.shown && r'.cache == r.cache && r'.load == None
  {
  }

  /**
    A file older than the life time is bypassed (not deleted): without a
    memory entry the lookup shows the placeholder and keeps the file.
   */
  lemma StaleFileIsMiss(cache: Cache, slot: Slot, url: Url, env: Env, codecs: Codecs)
    requires url !in cache.images
    requires UrlPath.RelativePath(url) in cache.files
    requires env.now - cache.files[UrlPath.RelativePath(url)].modified > CacheLifeTime
    ensures var r := Resolve(cache, slot, url, env, codecs);
            r.shown == Placeholder(LoadingAsset) && r.cache == cache
            && UrlPath.RelativePath(url) in r.cache.files
  {
  }

  /**
    Memory is keyed by the full URL, disk by the last segment. Loading two
    different URLs with the same last segment keeps two memory entries but
    only one file, holding the encoding of the later image.
   */
  lemma SharedFileSeparateMemory(cache: Cache, r1: LoadRequest, r2: LoadRequest,
                                 d1: Bytes, d2: Bytes, env: Env, codecs: Codecs)
    requires r1.url != r2.url
    requires UrlPath.FileName(r1.url) == UrlPath.FileName(r2.url)
    requires codecs.decode(d1).Some? && codecs.decode(d2).Some?
    requires env.hasCachesDirectory && codecs.pngData(codecs.decode(d2).value).Some?
    ensures var c1 := Complete(cache, r1, Fetched(d1), env, codecs).cache;
            var c2 := Complete(c1, r2, Fetched(d2), env, codecs).cache;
            && c2.images[r1.url] == codecs.decode(d1).value
            && c2.images[r2.url] == codecs.decode(d2).value
            && UrlPath.RelativePath(r1.url) == UrlPath.RelativePath(r2.url)
            && c2.files[UrlPath.RelativePath(r1.url)]
               == DiskFile(codecs.pngData(codecs.decode(d2).value).value, env.now)
  {
  }

  /**
    With an empty memory (a fresh service), a URL is served from the file
    written for a DIFFERENT URL with the same last segment.
   */
  lemma DiskServesOtherUrl(files: map<string, DiskFile>, slot: Slot, u1: Url, u2: Url,
                           img: Image, env: Env, codecs: Codecs)
    requires UrlPath.FileName(u1) == UrlPath.FileName(u2)
    requires env.hasCachesDirectory
    requires codecs.pngData(img).Some? && codecs.decode(codecs.pngData(img).value).Some?
    ensures var saved := SaveFile(Cache(map[], files), u1, img, env, codecs);
            Resolve(saved.(images := map[]), slot, u2, env, codecs).shown
              == Picture(codecs.decode(codecs.pngData(img).value).value)
  {
  }

  /**
    The picsum scenario: with both tiers empty, the first lookup shows the
    placeholder and starts one load; once it succeeds, the next lookup is
    served from memory.
   */
  lemma PicsumScenario(data: Bytes, env: Env, codecs: Codecs)
    requires codecs.isValidUrl("https://picsum.photos/id/1/5616/3744")
    requires codecs.decode(data).Some?
    ensures var url := "https://picsum.photos/id/1/5616/3744";
            var first := Resolve(Empty, Slot(0, 0), url, env, codecs);
            && first.shown == Placeholder(LoadingAsset)
            && first.load == Some(LoadRequest(Slot(0, 0), url))
            && var done := Complete(first.cache, first.load.value, Fetched(data), env, codecs);
               && done.reloaded == [Slot(0, 0)]
               && Resolve(done.cache, Slot(0, 0), url, env, codecs).shown
                  == Picture(codecs.decode(data).value)
  {
  }
}
