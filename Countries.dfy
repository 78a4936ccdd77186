/** The country records and the flag-image cache of `DemoCountries`
    (src/demo-countries/demo-countries.js). */
module Countries {
  import opened Text

  /** One row of the ISO 3166-1 table: its alpha-2 code and the country's name. */
  datatype IsoEntry = IsoEntry(alpha2: string, name: string)

  /** The `{imgSrc, code}` payload of a `country-flag-loaded` signal, which is what
      `addToFlagCache` queues. */
  datatype FlagRequest = FlagRequest(imgSrc: string, code: string)

  /** A country object. Its label, code and image path never change; `meta` is the
      stamp a list item puts on the shared object once it has signalled the flag. */
  class CountryRecord {
    const labelText: string
    const code: string
    const imgSrc: string
    var meta: bool

    constructor (labelText: string, code: string, imgSrc: string)
      ensures this.labelText == labelText && this.code == code && this.imgSrc == imgSrc
      ensures !meta
    {
      this.labelText, this.code, this.imgSrc := labelText, code, imgSrc;
      meta := false;
    }
  }

  const FlagDir: string := "/node_modules/flag-icon-css/flags/4x3/"

  /** The flag image of a (lower-cased) country code. */
  function FlagPath(code: string): (path: string)
    ensures |path| == |FlagDir| + |code| + 4
    ensures path[..|FlagDir|] == FlagDir && path[|FlagDir|..|FlagDir| + |code|] == code
    ensures path[|FlagDir| + |code|..] == ".svg"
  {
    FlagDir + code + ".svg"
  }

  /** Distinct codes never share a flag image, so the image path identifies the code. */
  lemma FlagPathInjective(a: string, b: string)
    ensures FlagPath(a) == FlagPath(b) ==> a == b
  {
    if FlagPath(a) == FlagPath(b) {
      assert |a| == |b|;
    }
  }

  /** The code list of a queue of flag requests, in queue order. */
  function Codes(reqs: seq<FlagRequest>): (r: seq<string>)
    ensures |r| == |reqs| && forall i :: 0 <= i < |reqs| ==> r[i] == reqs[i].code
  {
    seq(|reqs|, i requires 0 <= i < |reqs| => reqs[i].code)
  }

  /** The image sources of a queue of flag requests, in queue order. */
  function Sources(reqs: seq<FlagRequest>): (r: seq<string>)
    ensures |r| == |reqs| && forall i :: 0 <= i < |reqs| ==> r[i] == reqs[i].imgSrc
  {
    seq(|reqs|, i requires 0 <= i < |reqs| => reqs[i].imgSrc)
  }

  /** The record `isoMapping.map` builds from one table row. */
  predicate BuiltFrom(c: CountryRecord, e: IsoEntry)
  {
    c.labelText == e.name && c.code == LowerStr(e.alpha2) && c.imgSrc == FlagPath(c.code)
  }

  /** The `isoMapping.map` of `_fetchCountries`: one new, unstamped record per table
      row, in table order. */
  method BuildCountries(table: seq<IsoEntry>) returns (cs: seq<CountryRecord>)
    ensures |cs| == |table|
    ensures forall i :: 0 <= i < |table| ==> BuiltFrom(cs[i], table[i])
    ensures forall i :: 0 <= i < |cs| ==> fresh(cs[i]) && !cs[i].meta
    ensures forall i, j :: 0 <= i < j < |cs| ==> cs[i] != cs[j]
  {
    cs := [];
    var k := 0;
    while k < |table|
      invariant 0 <= k <= |table| && |cs| == k
      invariant forall i :: 0 <= i < k ==> BuiltFrom(cs[i], table[i])
      invariant forall i :: 0 <= i < k ==> fresh(cs[i]) && !cs[i].meta
      invariant forall i, j :: 0 <= i < j < k ==> cs[i] != cs[j]
    {
      var code := LowerStr(table[k].alpha2);
      var c := new CountryRecord(table[k].name, code, FlagPath(code));
      cs := cs + [c];
      k := k + 1;
    }
  }

  class DemoCountries {
    /** The country list the component publishes. */
    var data: seq<CountryRecord>
    /** Flags waiting for the next flush, in the order they were queued. */
    var nextFlagsToCache: seq<FlagRequest>
    /** Codes whose flag image has been requested, in request order. */
    var cachedFlags: seq<string>

    constructor ()
      ensures data == [] && nextFlagsToCache == [] && cachedFlags == []
    {
      data, nextFlagsToCache, cachedFlags := [], [], [];
    }

    /** `_fetchCountries`, with the delayed `_setData` performed at once: builds the
        records only while no data has been published. */
    method FetchCountries(table: seq<IsoEntry>)
      modifies this
      ensures old(data) != [] ==> data == old(data)
      ensures old(data) == [] ==>
        |data| == |table| &&
        (forall i :: 0 <= i < |table| ==> BuiltFrom(data[i], table[i]) && fresh(data[i]) && !data[i].meta) &&
        (forall i, j :: 0 <= i < j < |data| ==> data[i] != data[j])
      ensures nextFlagsToCache == old(nextFlagsToCache) && cachedFlags == old(cachedFlags)
    {
      if |data| == 0 {
        data := BuildCountries(table);
      }
    }

    /** `addToFlagCache`: queue a flag unless its code is already cached. Only the
        cached list is consulted, not the queue. */
    method AddToFlagCache(country: FlagRequest)
      modifies this
      ensures country.code in old(cachedFlags) ==> nextFlagsToCache == old(nextFlagsToCache)
      ensures country.code !in old(cachedFlags) ==> nextFlagsToCache == old(nextFlagsToCache) + [country]
      ensures cachedFlags == old(cachedFlags) && data == old(data)
    {
      if country.code in cachedFlags {
        return;
      }
      nextFlagsToCache := nextFlagsToCache + [country];
    }

    /** `_cacheNewFlags`: request every queued flag image in queue order, record each
        code as cached, then empty the queue. Returns the image sources requested. */
    method CacheNewFlags() returns (images: seq<string>)
      modifies this
      ensures images == Sources(old(nextFlagsToCache))
      ensures cachedFlags == old(cachedFlags) + Codes(old(nextFlagsToCache))
      ensures nextFlagsToCache == [] && data == old(data)
    {
      images := [];
      var k := 0;
      while k < |nextFlagsToCache|
        invariant 0 <= k <= |nextFlagsToCache|
        invariant nextFlagsToCache == old(nextFlagsToCache) && data == old(data)
        invariant images == Sources(nextFlagsToCache[..k])
        invariant cachedFlags == old(cachedFlags) + Codes(nextFlagsToCache[..k])
      {
        var country := nextFlagsToCache[k];
        images := images + [country.imgSrc];
        cachedFlags := cachedFlags + [country.code];
        k := k + 1;
      }
      assert nextFlagsToCache[..k] == nextFlagsToCache;
      nextFlagsToCache := [];
    }
  }

  /** A code queued and flushed is never queued again, but a code still waiting in the
      queue is queued a second time and its image is requested twice. */
  method FlagCacheScenario(f: FlagRequest) returns (firstFlush: seq<string>, secondFlush: seq<string>)
    ensures firstFlush == [f.imgSrc, f.imgSrc] && secondFlush == []
  {
    var cache := new DemoCountries();
    cache.AddToFlagCache(f);
    cache.AddToFlagCache(f);
    assert cache.nextFlagsToCache == [f, f];
    firstFlush := cache.CacheNewFlags();
    assert cache.cachedFlags == [f.code, f.code];
    cache.AddToFlagCache(f);
    assert cache.nextFlagsToCache == [];
    secondFlush := cache.CacheNewFlags();
  }
}
