/**
 * The reference-counted dataset cache (src/imageLoader/dcmjs/dataSetCacheManager.js)
 * and the parts of its fetch requests the cache relies on
 * (src/imageLoader/internal/fetchRequest.js): each URI maps to one request
 * whose `cacheCount` counts the loads not yet matched by an unload, and a
 * byte counter adds the size each request reports.
 */
module DataSetCache {
  import opened Values

  /** The promise `fetchDicomDict()` returns; only its identity matters here. */
  class DicomDictPromise {
    const url: string

    constructor(url: string)
      ensures this.url == url
    {
      this.url := url;
    }
  }

  /** A request for one URI: its reference count, its reported size and its stream reader. */
  class FetchRequest {
    const url: string
    const imageId: string
    const dicomDict: DicomDictPromise
    var cacheCount: int
    /** `undefined` until the response headers give a size. */
    var size: Option<int>
    /** Whether a stream reader exists, which happens when the size is known. */
    var reading: bool
    var readerCancelled: bool

    /** The request starts with one reference and starts fetching at once. */
    constructor(url: string, imageId: string)
      ensures this.url == url && this.imageId == imageId
      ensures cacheCount == 1 && size == None
      ensures !reading && !readerCancelled
      ensures fresh(dicomDict) && dicomDict.url == url
    {
      this.url := url;
      this.imageId := imageId;
      cacheCount := 1;
      dicomDict := new DicomDictPromise(url);
      size := None;
      reading := false;
      readerCancelled := false;
    }

    /** cancel(): cancels the reader if there is one. */
    method Cancel()
      modifies this
      ensures readerCancelled == (old(readerCancelled) || reading)
      ensures cacheCount == old(cacheCount) && size == old(size) && reading == old(reading)
    {
      if reading {
        readerCancelled := true;
      }
    }
  }

  // ---------------------------------------------------------------------
  // The cache as a value

  datatype Entry = Entry(cacheCount: int, size: Option<int>)

  datatype CacheView = CacheView(entries: map<string, Entry>, cacheSizeInBytes: int)

  datatype CacheInfo = CacheInfo(cacheSizeInBytes: int, numberOfDataSetsCached: int)

  /** Every cached URI has at least one outstanding load. */
  predicate ValidView(v: CacheView)
  {
    forall u :: u in v.entries ==> v.entries[u].cacheCount >= 1
  }

  function InfoOf(v: CacheView): CacheInfo
  {
    CacheInfo(v.cacheSizeInBytes, |v.entries.Keys|)
  }

  /** load(uri): one more reference to a cached URI, or a new entry with one reference and no size. */
  function LoadSpec(v: CacheView, uri: string): (w: CacheView)
    ensures ValidView(v) ==> ValidView(w)
    ensures uri in w.entries && w.entries.Keys == v.entries.Keys + {uri}
    ensures w.cacheSizeInBytes == v.cacheSizeInBytes
    ensures uri in v.entries ==> w.entries[uri] == v.entries[uri].(cacheCount := v.entries[uri].cacheCount + 1)
    ensures uri !in v.entries ==> w.entries[uri] == Entry(1, None)
    ensures forall u :: u in v.entries && u != uri ==> w.entries[u] == v.entries[u]
  {
    if uri in v.entries then
      var e := v.entries[uri];
      CacheView(v.entries[uri := e.(cacheCount := e.cacheCount + 1)], v.cacheSizeInBytes)
    else
      CacheView(v.entries[uri := Entry(1, None)], v.cacheSizeInBytes)
  }

  /**
   * unload(uri): nothing for an absent URI; one reference less otherwise,
   * and at the last one the entry goes and a non-zero size is subtracted.
   */
  function UnloadSpec(v: CacheView, uri: string): (w: CacheView)
    ensures ValidView(v) ==> ValidView(w)
    ensures uri !in v.entries ==> w == v
    ensures uri in v.entries && v.entries[uri].cacheCount != 1 ==>
      w.cacheSizeInBytes == v.cacheSizeInBytes
      && w.entries == v.entries[uri := v.entries[uri].(cacheCount := v.entries[uri].cacheCount - 1)]
    ensures uri in v.entries && v.entries[uri].cacheCount == 1 ==>
      w.entries == v.entries - {uri}
      && w.cacheSizeInBytes == v.cacheSizeInBytes - (match v.entries[uri].size case Some(s) => s case None => 0)
  {
    if uri !in v.entries then v
    else
      var e := v.entries[uri];
      if e.cacheCount - 1 == 0 then
        var reclaimed := if e.size.Some? && e.size.value != 0 then e.size.value else 0;
        CacheView(v.entries - {uri}, v.cacheSizeInBytes - reclaimed)
      else
        CacheView(v.entries[uri := e.(cacheCount := e.cacheCount - 1)], v.cacheSizeInBytes)
  }

  /**
   * The size callback of the request made for `uri`: the counter always
   * grows by `size`; the entry records it only while that request is still
   * the one cached (`current`).
   */
  function SizeReportedSpec(v: CacheView, uri: string, current: bool, size: int): (w: CacheView)
    requires current ==> uri in v.entries
    ensures ValidView(v) ==> ValidView(w)
    ensures w.cacheSizeInBytes == v.cacheSizeInBytes + size
    ensures w.entries.Keys == v.entries.Keys
    ensures current ==> w.entries[uri] == v.entries[uri].(size := Some(size))
    ensures forall u :: u in v.entries && (u != uri || !current) ==> w.entries[u] == v.entries[u]
  {
    var entries := if current then v.entries[uri := v.entries[uri].(size := Some(size))] else v.entries;
    CacheView(entries, v.cacheSizeInBytes + size)
  }

  /** purge(): no entries and a zero counter. */
  function PurgeSpec(v: CacheView): (w: CacheView)
    ensures ValidView(w) && InfoOf(w) == CacheInfo(0, 0)
  {
    CacheView(map[], 0)
  }

  function Loads(v: CacheView, uri: string, n: nat): CacheView
  {
    if n == 0 then v else LoadSpec(Loads(v, uri, n - 1), uri)
  }

  function Unloads(v: CacheView, uri: string, n: nat): CacheView
    decreases n
  {
    if n == 0 then v else Unloads(UnloadSpec(v, uri), uri, n - 1)
  }

  /** An unload undoes the load just before it. */
  lemma UnloadUndoesLoad(v: CacheView, uri: string)
    requires ValidView(v)
    ensures UnloadSpec(LoadSpec(v, uri), uri) == v
  {
    assert UnloadSpec(LoadSpec(v, uri), uri).entries == v.entries;
  }

  lemma {:induction false} LoadsValid(v: CacheView, uri: string, n: nat)
    requires ValidView(v)
    ensures ValidView(Loads(v, uri, n))
  {
    if n > 0 {
      LoadsValid(v, uri, n - 1);
    }
  }

  /** N loads followed by N unloads of one URI give back the cache they started from. */
  lemma {:induction false} LoadsThenUnloads(v: CacheView, uri: string, n: nat)
    requires ValidView(v)
    ensures Unloads(Loads(v, uri, n), uri, n) == v
  {
    if n > 0 {
      var previous := Loads(v, uri, n - 1);
      LoadsValid(v, uri, n - 1);
      UnloadUndoesLoad(previous, uri);
      assert Unloads(Loads(v, uri, n), uri, n) == Unloads(previous, uri, n - 1);
      LoadsThenUnloads(v, uri, n - 1);
    }
  }

  /** After n loads of an uncached URI its entry holds n references and no size. */
  lemma {:induction false} LoadsOfNewUri(v: CacheView, uri: string, n: nat)
    requires uri !in v.entries && n >= 1
    ensures uri in Loads(v, uri, n).entries
    ensures Loads(v, uri, n).entries == v.entries[uri := Entry(n, None)]
    ensures Loads(v, uri, n).cacheSizeInBytes == v.cacheSizeInBytes
  {
    if n > 1 {
      LoadsOfNewUri(v, uri, n - 1);
      var previous := Loads(v, uri, n - 1);
      assert Loads(v, uri, n) == LoadSpec(previous, uri);
      assert LoadSpec(previous, uri).entries == v.entries[uri := Entry(n, None)];
    }
  }

  /** Unloading k of more than k references lowers the count by k and keeps the rest. */
  lemma {:induction false} UnloadsKeepEntry(
    others: map<string, Entry>, total: int, uri: string, count: nat, size: Option<int>, k: nat)
    requires k < count
    ensures Unloads(CacheView(others[uri := Entry(count, size)], total), uri, k)
            == CacheView(others[uri := Entry(count - k, size)], total)
    decreases k
  {
    if k > 0 {
      var v := CacheView(others[uri := Entry(count, size)], total);
      assert UnloadSpec(v, uri).entries == others[uri := Entry(count - 1, size)];
      UnloadsKeepEntry(others, total, uri, count - 1, size, k - 1);
    }
  }

  /**
   * A URI loaded n times whose size arrives while it is cached, then
   * unloaded n times, leaves the entries and the byte counter as they were.
   */
  lemma LoadSizeUnload(v: CacheView, uri: string, n: nat, size: int)
    requires uri !in v.entries && n >= 1
    ensures uri in Loads(v, uri, n).entries
    ensures Unloads(SizeReportedSpec(Loads(v, uri, n), uri, true, size), uri, n) == v
  {
    LoadsOfNewUri(v, uri, n);
    SizedAfterLoads(v, uri, n, size);
    UnloadsOfSized(v, uri, n, size, SizeReportedSpec(Loads(v, uri, n), uri, true, size));
  }

  /** The size callback on n fresh loads records the size in the one new entry. */
  lemma SizedAfterLoads(v: CacheView, uri: string, n: nat, size: int)
    requires uri !in v.entries && n >= 1
    ensures uri in Loads(v, uri, n).entries
    ensures SizeReportedSpec(Loads(v, uri, n), uri, true, size)
            == CacheView(v.entries[uri := Entry(n, Some(size))], v.cacheSizeInBytes + size)
  {
    LoadsOfNewUri(v, uri, n);
    var sized := SizeReportedSpec(Loads(v, uri, n), uri, true, size);
    assert sized.entries == v.entries[uri := Entry(n, Some(size))];
  }

  /** n unloads of an entry with n references and a size remove it and give the size back. */
  lemma UnloadsOfSized(v: CacheView, uri: string, n: nat, size: int, sized: CacheView)
    requires uri !in v.entries && n >= 1
    requires sized == CacheView(v.entries[uri := Entry(n, Some(size))], v.cacheSizeInBytes + size)
    ensures Unloads(sized, uri, n) == v
  {
    var total := v.cacheSizeInBytes + size;
    var last := CacheView(v.entries[uri := Entry(1, Some(size))], total);
    UnloadsKeepEntry(v.entries, total, uri, n, Some(size), n - 1);
    UnloadsSplit(sized, uri, n - 1);
    LastUnload(v, last, uri, size);
  }

  lemma LastUnload(v: CacheView, last: CacheView, uri: string, size: int)
    requires uri !in v.entries
    requires last.entries == v.entries[uri := Entry(1, Some(size))]
    requires last.cacheSizeInBytes == v.cacheSizeInBytes + size
    ensures UnloadSpec(last, uri) == v
  {
    assert UnloadSpec(last, uri).entries == v.entries;
  }

  lemma {:induction false} UnloadsSplit(v: CacheView, uri: string, k: nat)
    ensures Unloads(v, uri, k + 1) == UnloadSpec(Unloads(v, uri, k), uri)
    decreases k
  {
    if k > 0 {
      UnloadsSplit(UnloadSpec(v, uri), uri, k - 1);
    }
  }

  /** A size reported after its request was unloaded stays in the counter with nothing cached. */
  lemma LateSizeLeaks(uri: string, size: int)
    requires size != 0
    ensures var v := UnloadSpec(LoadSpec(CacheView(map[], 0), uri), uri);
      uri !in v.entries
      && InfoOf(SizeReportedSpec(v, uri, false, size)) == CacheInfo(size, 0)
  {
  }

  /** The evidently intended callback: a request that is no longer cached reports nothing. */
  function CorrectedSizeReportedSpec(v: CacheView, uri: string, current: bool, size: int): (w: CacheView)
    requires current ==> uri in v.entries
    ensures !current ==> w == v
    ensures current ==> w == SizeReportedSpec(v, uri, current, size)
  {
    if current then SizeReportedSpec(v, uri, current, size) else v
  }

  /** With the corrected callback, a load and an unload restore the counter whenever the size arrives. */
  lemma CorrectedSizeNeverLeaks(v: CacheView, uri: string, size: int)
    requires ValidView(v) && uri !in v.entries
    ensures uri in LoadSpec(v, uri).entries
    ensures UnloadSpec(CorrectedSizeReportedSpec(LoadSpec(v, uri), uri, true, size), uri) == v
    ensures CorrectedSizeReportedSpec(UnloadSpec(LoadSpec(v, uri), uri), uri, false, size) == v
  {
    LoadSizeUnload(v, uri, 1, size);
    UnloadUndoesLoad(v, uri);
  }

  // ---------------------------------------------------------------------
  // The cache manager

  class DataSetCacheManager {
    var cacheSizeInBytes: int
    var loadedDataSets: map<string, FetchRequest>

    /** Each entry is the request made for its own URI and has at least one reference. */
    ghost predicate Valid()
      reads this, loadedDataSets.Values
    {
      forall u :: u in loadedDataSets ==>
        loadedDataSets[u].url == u && loadedDataSets[u].cacheCount >= 1
    }

    function View(): CacheView
      reads this, loadedDataSets.Values
    {
      CacheView(
        map u | u in loadedDataSets :: Entry(loadedDataSets[u].cacheCount, loadedDataSets[u].size),
        cacheSizeInBytes)
    }

    constructor()
      ensures Valid() && View() == CacheView(map[], 0)
    {
      cacheSizeInBytes := 0;
      loadedDataSets := map[];
    }

    /** isLoaded(uri) */
    function IsLoaded(uri: string): (b: bool)
      reads this
      ensures b <==> uri in View().entries
    {
      uri in loadedDataSets
    }

    /** get(uri): the cached request's promise, or `undefined`. */
    function Get(uri: string): (r: Option<DicomDictPromise>)
      reads this, loadedDataSets.Values
      ensures r.Some? <==> IsLoaded(uri)
      ensures r.Some? ==> r.value == loadedDataSets[uri].dicomDict
    {
      if uri in loadedDataSets then Some(loadedDataSets[uri].dicomDict) else None
    }

    /** getInfo() */
    function GetInfo(): (info: CacheInfo)
      reads this, loadedDataSets.Values
      ensures info == InfoOf(View())
    {
      assert View().entries.Keys == loadedDataSets.Keys;
      CacheInfo(cacheSizeInBytes, |loadedDataSets.Keys|)
    }

    /** load(uri, imageId) */
    method Load(uri: string, imageId: string) returns (dicomDict: DicomDictPromise)
      requires Valid()
      modifies this, loadedDataSets.Values
      ensures Valid()
      ensures View() == LoadSpec(old(View()), uri)
      ensures uri in old(loadedDataSets) ==>
        loadedDataSets == old(loadedDataSets) && dicomDict == loadedDataSets[uri].dicomDict
      ensures uri !in old(loadedDataSets) ==>
        uri in loadedDataSets && fresh(loadedDataSets[uri])
        && loadedDataSets == old(loadedDataSets)[uri := loadedDataSets[uri]]
        && dicomDict == loadedDataSets[uri].dicomDict
      ensures uri !in old(loadedDataSets) ==>
        loadedDataSets[uri].url == uri && loadedDataSets[uri].imageId == imageId
        && !loadedDataSets[uri].reading && !loadedDataSets[uri].readerCancelled
      ensures forall r ::
        (r in old(loadedDataSets.Values) && (uri !in old(loadedDataSets) || r != old(loadedDataSets[uri])))
        ==> unchanged(r)
      ensures uri in old(loadedDataSets) ==>
        var request := old(loadedDataSets[uri]);
        request.cacheCount == old(request.cacheCount) + 1
        && request.size == old(request.size) && request.reading == old(request.reading)
        && request.readerCancelled == old(request.readerCancelled)
    {
      if uri in loadedDataSets {
        var request := loadedDataSets[uri];
        request.cacheCount := request.cacheCount + 1;
        assert View().entries == LoadSpec(old(View()), uri).entries;
        return request.dicomDict;
      }
      var request := new FetchRequest(uri, imageId);
      loadedDataSets := loadedDataSets[uri := request];
      assert View().entries == LoadSpec(old(View()), uri).entries;
      return request.dicomDict;
    }

    /** unload(uri) */
    method Unload(uri: string)
      requires Valid()
      modifies this, loadedDataSets.Values
      ensures Valid()
      ensures View() == UnloadSpec(old(View()), uri)
      ensures (uri !in old(loadedDataSets) || old(loadedDataSets[uri].cacheCount) != 1) ==>
        loadedDataSets == old(loadedDataSets)
      ensures (uri in old(loadedDataSets) && old(loadedDataSets[uri].cacheCount) == 1) ==>
        loadedDataSets == old(loadedDataSets) - {uri}
      ensures forall r ::
        (r in old(loadedDataSets.Values) && (uri !in old(loadedDataSets) || r != old(loadedDataSets[uri])))
        ==> unchanged(r)
      ensures uri in old(loadedDataSets) ==>
        var request := old(loadedDataSets[uri]);
        request.cacheCount == old(request.cacheCount) - 1
        && request.size == old(request.size) && request.reading == old(request.reading)
        && (old(request.cacheCount) == 1 ==>
              request.readerCancelled == (old(request.readerCancelled) || old(request.reading)))
        && (old(request.cacheCount) != 1 ==> request.readerCancelled == old(request.readerCancelled))
    {
      if uri in loadedDataSets {
        var request := loadedDataSets[uri];
        assert forall u :: u in loadedDataSets && u != uri ==> loadedDataSets[u] != request;
        request.cacheCount := request.cacheCount - 1;
        if request.cacheCount == 0 {
          Evict(uri, request);
          assert View().entries == old(View()).entries - {uri};
        } else {
          assert View().entries == old(View()).entries[uri := Entry(request.cacheCount, request.size)];
        }
      }
    }

    /** The last reference is gone: cancel the reader, give back a truthy size and drop the entry. */
    method Evict(uri: string, request: FetchRequest)
      requires uri in loadedDataSets && loadedDataSets[uri] == request
      modifies this, request
      ensures loadedDataSets == old(loadedDataSets) - {uri}
      ensures cacheSizeInBytes
              == old(cacheSizeInBytes) - if request.size.Some? && request.size.value != 0 then request.size.value else 0
      ensures request.cacheCount == old(request.cacheCount) && request.size == old(request.size)
      ensures request.reading == old(request.reading)
      ensures request.readerCancelled == (old(request.readerCancelled) || old(request.reading))
    {
      request.Cancel();
      if request.size.Some? && request.size.value != 0 {
        cacheSizeInBytes := cacheSizeInBytes - request.size.value;
      }
      loadedDataSets := loadedDataSets - {uri};
    }

    /**
     * The `onSize` callback of `request` followed by the request recording
     * its size and opening its reader.
     */
    method SizeReported(request: FetchRequest, size: int)
      requires Valid()
      modifies this, request
      ensures Valid()
      ensures var current := request.url in old(loadedDataSets) && old(loadedDataSets[request.url]) == request;
        View() == SizeReportedSpec(old(View()), request.url, current, size)
      ensures loadedDataSets == old(loadedDataSets)
      ensures request.size == Some(size) && request.reading
      ensures request.cacheCount == old(request.cacheCount) && request.readerCancelled == old(request.readerCancelled)
    {
      ghost var current := request.url in loadedDataSets && loadedDataSets[request.url] == request;
      cacheSizeInBytes := cacheSizeInBytes + size;
      request.size := Some(size);
      request.reading := true;
      assert View().entries == SizeReportedSpec(old(View()), request.url, current, size).entries;
    }

    /** purge(): requests are neither cancelled nor told. */
    method Purge()
      modifies this
      ensures Valid()
      ensures View() == PurgeSpec(old(View()))
    {
      loadedDataSets := map[];
      cacheSizeInBytes := 0;
    }
  }
}
