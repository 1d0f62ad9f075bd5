/** The scan handler of the trace dialog: every record of a scan is skipped,
    served from the cache, copied from a cached map of the same location, or
    fetched from the map and place services, and the dialog remembers each
    picture's cache key for displaying it later.

    The `maps/` and `places/` directories are the fields of a `CacheDirs`
    object; `md5sum`, the static-map request and the reverse-geocoding
    request are function parameters. */
module TraceDialog {
  import opened Outcomes
  import opened Text
  import opened Coordinates
  import opened Report
  import opened PlaceNames
  import opened CacheKeys

  type Bytes = seq<bv8>

  /** What the handler did with one record; `CopyFailed` and `PlaceFailed`
      are the exceptions that escape the handler from inside the loop. */
  datatype Action =
    | Skipped                        // the path is already in the result list
    | Reused                         // the picture's own map is already cached
    | Copied(source: string)         // the cached map `source` ends with the same coordinates
    | CopyFailed(exc: PyException)   // `shutil.copy2` raised
    | StaleFlagSkip                  // the same-location flag was left set by an earlier failed copy
    | Fetched                        // the map and the place text were fetched and written
    | PlaceFailed(exc: PyException)  // the map was written, then the place lookup raised
    | MapFailed                      // the map request failed

  /** How a press of the scan button ends: each failure and its status text,
      `Found` with the number of records, or an exception escaping. */
  datatype ScanOutcome =
    | NotADirectory      // "Not a directory", returns 1
    | NoGpsData          // "No GPS data", returns 1
    | ApiCallFail        // "API Call Fail (key?)", returns 1
    | Found(count: nat)  // "Found <count> locations", returns 0
    | Failed(exc: PyException)

  /** The dialog's fields and the two cache directories as one value. */
  datatype Scene = Scene(listResults: seq<string>, mapsHashes: map<string, string>, sameLocFlag: bool,
                         maps: map<string, Bytes>, places: map<string, string>)

  /** What the loop derives from one record before testing anything: its
      path, the digest of the picture, its key, the coordinate ending
      searched for among the cached maps, and its location. */
  datatype Rec = Rec(path: string, digest: Digest, key: string, suffix: string, at: Coord)

  /** The record of the picture `path` at `c`: its own map name ends with
      the coordinate ending searched for among the cached maps. */
  function RecordOf(path: string, c: Coord, md5: string -> Digest): (r: Rec)
    ensures EndsWith(MapFile(r.key), r.suffix)
  {
    MapFileEndsWithSuffix(md5(path), c);
    Rec(path, md5(path), Key(md5(path), c), CoordSuffix(c), c)
  }

  predicate Distinct<T(==)>(xs: seq<T>) {
    forall i, j :: 0 <= i < j < |xs| ==> xs[i] != xs[j]
  }

  /** `names` is what `os.listdir` returns for a directory: each file once,
      in some order. */
  ghost predicate IsListing<T>(names: seq<string>, dir: map<string, T>) {
    Distinct(names) && forall n :: n in names <==> n in dir
  }

  /** Some cached map name ends with `suffix`. */
  ghost predicate HasMapOf(maps: map<string, Bytes>, suffix: string) {
    exists n :: n in maps && EndsWith(n, suffix)
  }

  // ---------------------------------------------------------------------
  // The file operations.

  /** `shutil.copy2(src, dst)` on the contents of one directory. */
  function Copy2<T>(dir: map<string, T>, src: string, dst: string): (r: Result<map<string, T>>)
    ensures r.Ok? <==> src in dir && src != dst
  {
    if src !in dir then Raised(FileNotFoundError)
    else if src == dst then Raised(SameFileError)
    else Ok(dir[dst := dir[src]])
  }

  /** A copy fails exactly when the source is missing or is the
      destination; otherwise the destination gets the source's contents
      and no other file changes. */
  lemma Copy2Spec<T>(dir: map<string, T>, src: string, dst: string)
    ensures Copy2(dir, src, dst).Ok? <==> src in dir && src != dst
    ensures Copy2(dir, src, dst).Raised? ==>
              Copy2(dir, src, dst).exc == (if src !in dir then FileNotFoundError else SameFileError)
    ensures Copy2(dir, src, dst).Ok? ==>
              var r := Copy2(dir, src, dst).value;
              r.Keys == dir.Keys + {dst} && r[dst] == dir[src] &&
              forall n :: n in dir && n != dst ==> r[n] == dir[n]
  {
  }

  /** What is written to a place file: the place text, or `Unknown Place`
      when it is empty. */
  function PlaceText(place: string): (r: string)
    ensures r != ""
    ensures place != "" ==> r == place
  {
    if place == "" then "Unknown Place" else place
  }

  /** The index of the first listed name ending with `suffix`, or the
      length of the listing when there is none. */
  function FirstMatch(names: seq<string>, suffix: string): (r: nat)
    ensures r <= |names|
    ensures r < |names| ==> EndsWith(names[r], suffix)
    ensures forall k :: 0 <= k < r ==> !EndsWith(names[k], suffix)
  {
    if |names| == 0 then 0
    else if EndsWith(names[0], suffix) then 0
    else 1 + FirstMatch(names[1..], suffix)
  }

  // ---------------------------------------------------------------------
  // One record.

  /** Copying the map and then the place file of the cached map `name` to
      the digest `h`; the same-location flag is set before and cleared
      after, and stays set when a copy raises. */
  function CopyStep(s: Scene, name: string, h: Digest): (step: (Scene, Action))
    ensures step.1 == Copied(name) || step.1.CopyFailed?
    ensures step.0.sameLocFlag <==> step.1.CopyFailed?
  {
    var stem := Stem(name);
    var target := CopyTarget(h, name);
    match Copy2(s.maps, MapFile(stem), MapFile(target))
    case Raised(e) => (s.(sameLocFlag := true), CopyFailed(e))
    case Ok(maps) =>
      match Copy2(s.places, PlaceFile(stem), PlaceFile(target))
      case Raised(e) => (s.(sameLocFlag := true, maps := maps), CopyFailed(e))
      case Ok(places) => (s.(sameLocFlag := false, maps := maps, places := places), Copied(name))
  }

  /** Fetching the map of `c` into `<key>.jpg` and then its place text into
      `<key>.txt`. */
  function FetchStep(s: Scene, key: string, c: Coord, fetchMap: Coord -> Option<Bytes>,
                     geocode: Coord -> GeoReply): (step: (Scene, Action))
    ensures step.1 == MapFailed <==> fetchMap(c).None?
    ensures step.1 == Fetched <==> fetchMap(c).Some? && PlaceName(geocode(c)).Ok?
    ensures step.1 == MapFailed || step.1 == Fetched || step.1.PlaceFailed?
    ensures MapWritten(step.1) ==> MapFile(key) in step.0.maps
  {
    match fetchMap(c)
    case None => (s, MapFailed)
    case Some(image) =>
      var s1 := s.(maps := s.maps[MapFile(key) := image]);
      match PlaceName(geocode(c))
      case Raised(e) => (s1, PlaceFailed(e))
      case Ok(place) => (s1.(places := s.places[PlaceFile(key) := PlaceText(place)]), Fetched)
  }

  /** One pass of the scan loop for the record `r`, given the listing
      `names` of `maps/` taken at its start. */
  function RecordStep(s: Scene, names: seq<string>, r: Rec, fetchMap: Coord -> Option<Bytes>,
                      geocode: Coord -> GeoReply): (step: (Scene, Action))
    ensures step.0.mapsHashes == s.mapsHashes[r.path := r.key]
    ensures step.1 == Skipped <==> r.path in s.listResults
    ensures step.1 == Reused <==> r.path !in s.listResults && MapFile(r.key) in names
  {
    var s1 := s.(mapsHashes := s.mapsHashes[r.path := r.key]);
    if r.path in s.listResults then (s1, Skipped)
    else
      var s2 := s1.(listResults := s.listResults + [r.path]);
      if MapFile(r.key) in names then (s2, Reused)
      else
        var m := FirstMatch(names, r.suffix);
        if m < |names| then CopyStep(s2, names[m], r.digest)
        else if s.sameLocFlag then (s2.(sameLocFlag := false), StaleFlagSkip)
        else FetchStep(s2, r.key, r.at, fetchMap, geocode)
  }

  /** The record's map was written by a fetch. */
  predicate MapWritten(a: Action) {
    a.Fetched? || a.PlaceFailed?
  }

  /** The map service was asked for the record's location. */
  predicate FetchAttempted(a: Action) {
    a.Fetched? || a.PlaceFailed? || a.MapFailed?
  }

  /** What every record reached does to the dialog and the directories:
      its key is set, its path appended when new, and no file lost. */
  predicate Bookkept(s: Scene, t: Scene, path: string, key: string) {
    t.mapsHashes == s.mapsHashes[path := key] &&
    t.listResults == (if path in s.listResults then s.listResults else s.listResults + [path]) &&
    s.maps.Keys <= t.maps.Keys && s.places.Keys <= t.places.Keys
  }

  // ---------------------------------------------------------------------
  // What one record does.

  /** Every record reached sets its path's key before any test, only a new
      path is appended to the result list, and no cached file disappears. */
  lemma RecordStepBookkeeping(s: Scene, names: seq<string>, r: Rec, fetchMap: Coord -> Option<Bytes>,
                              geocode: Coord -> GeoReply)
    ensures Bookkept(s, RecordStep(s, names, r, fetchMap, geocode).0, r.path, r.key)
  {
    if r.path !in s.listResults && MapFile(r.key) !in names {
      var s2 := s.(mapsHashes := s.mapsHashes[r.path := r.key], listResults := s.listResults + [r.path]);
      var m := FirstMatch(names, r.suffix);
      if m < |names| {
        CopyStepKeepsFiles(s2, names[m], r.digest);
      } else if !s.sameLocFlag {
        FetchStepKeepsFiles(s2, r.key, r.at, fetchMap, geocode);
      }
    }
  }

  /** A copy changes only the flag and the two directories, and removes no
      file. */
  lemma CopyStepKeepsFiles(s: Scene, name: string, h: Digest)
    ensures var t := CopyStep(s, name, h).0;
            t.listResults == s.listResults && t.mapsHashes == s.mapsHashes &&
            s.maps.Keys <= t.maps.Keys && s.places.Keys <= t.places.Keys
  {
    var stem := Stem(name);
    var target := CopyTarget(h, name);
    Copy2Spec(s.maps, MapFile(stem), MapFile(target));
    Copy2Spec(s.places, PlaceFile(stem), PlaceFile(target));
  }

  /** A fetch changes only the two directories, and removes no file. */
  lemma FetchStepKeepsFiles(s: Scene, key: string, c: Coord, fetchMap: Coord -> Option<Bytes>,
                            geocode: Coord -> GeoReply)
    ensures var t := FetchStep(s, key, c, fetchMap, geocode).0;
            t.listResults == s.listResults && t.mapsHashes == s.mapsHashes && t.sameLocFlag == s.sameLocFlag &&
            s.maps.Keys <= t.maps.Keys && s.places.Keys <= t.places.Keys
  {
  }

  /** The result list never holds a path twice, and every listed path has
      a key. */
  lemma BookkeptKeepsListing(s: Scene, t: Scene, path: string, key: string)
    requires Bookkept(s, t, path, key)
    requires Distinct(s.listResults) && forall p :: p in s.listResults ==> p in s.mapsHashes
    ensures Distinct(t.listResults) && forall p :: p in t.listResults ==> p in t.mapsHashes
    ensures path in t.listResults && t.mapsHashes[path] == key
  {
    if path !in s.listResults {
      forall i, j | 0 <= i < j < |t.listResults| ensures t.listResults[i] != t.listResults[j] {
        if j == |s.listResults| {
          assert t.listResults[i] == s.listResults[i];
        }
      }
    }
  }

  /** A path already in the result list is skipped: only its key changes. */
  lemma SkipTouchesNothing(s: Scene, names: seq<string>, r: Rec, fetchMap: Coord -> Option<Bytes>,
                           geocode: Coord -> GeoReply)
    requires r.path in s.listResults
    ensures RecordStep(s, names, r, fetchMap, geocode) == (s.(mapsHashes := s.mapsHashes[r.path := r.key]), Skipped)
  {
  }

  /** A picture whose own map is listed is only added to the list: no file
      is written and no service asked. */
  lemma ReuseTouchesNothing(s: Scene, names: seq<string>, r: Rec, fetchMap: Coord -> Option<Bytes>,
                            geocode: Coord -> GeoReply)
    requires r.path !in s.listResults && MapFile(r.key) in names
    ensures RecordStep(s, names, r, fetchMap, geocode) ==
            (s.(mapsHashes := s.mapsHashes[r.path := r.key], listResults := s.listResults + [r.path]), Reused)
  {
  }

  /** In a listing of `maps/`, some name ends with `suffix` exactly when a
      cached map name does. */
  lemma FirstMatchFindsMap(names: seq<string>, maps: map<string, Bytes>, suffix: string)
    requires IsListing(names, maps)
    ensures FirstMatch(names, suffix) < |names| <==> HasMapOf(maps, suffix)
  {
    var m := FirstMatch(names, suffix);
    if m < |names| {
      assert names[m] in maps;
    }
    if HasMapOf(maps, suffix) {
      var n :| n in maps && EndsWith(n, suffix);
      var k :| 0 <= k < |names| && names[k] == n;
    }
  }

  /** A listed name with the ending is a cached map with it. */
  lemma ListedEndingMapped(names: seq<string>, maps: map<string, Bytes>, name: string, suffix: string)
    requires IsListing(names, maps) && EndsWith(name, suffix)
    ensures name in names ==> HasMapOf(maps, suffix)
  {
    if name in names {
      assert name in maps;
    }
  }

  /** The map service is asked exactly when the path is new, no cached map
      name ends with the record's coordinate ending, and the same-location
      flag is clear. */
  lemma FetchOnlyWhenUnmapped(s: Scene, names: seq<string>, r: Rec, fetchMap: Coord -> Option<Bytes>,
                              geocode: Coord -> GeoReply)
    requires IsListing(names, s.maps) && EndsWith(MapFile(r.key), r.suffix)
    ensures FetchAttempted(RecordStep(s, names, r, fetchMap, geocode).1) <==>
            r.path !in s.listResults && !HasMapOf(s.maps, r.suffix) && !s.sameLocFlag
  {
    FirstMatchFindsMap(names, s.maps, r.suffix);
    ListedEndingMapped(names, s.maps, MapFile(r.key), r.suffix);
  }

  /** When a map with the record's coordinate ending is cached, what the
      record does does not depend on the map or place services at all. */
  lemma NoServiceCallWhenMapped(s: Scene, names: seq<string>, r: Rec,
                                fetchMap: Coord -> Option<Bytes>, geocode: Coord -> GeoReply,
                                fetchMap': Coord -> Option<Bytes>, geocode': Coord -> GeoReply)
    requires IsListing(names, s.maps) && HasMapOf(s.maps, r.suffix)
    ensures RecordStep(s, names, r, fetchMap, geocode) == RecordStep(s, names, r, fetchMap', geocode')
  {
    var n :| n in s.maps && EndsWith(n, r.suffix);
    var k :| 0 <= k < |names| && names[k] == n;
    assert FirstMatch(names, r.suffix) < |names|;
  }

  /** A successful fetch leaves the map in `<key>.jpg` and a never-empty
      place text in `<key>.txt`, and clears the flag. */
  lemma FetchedFiles(s: Scene, names: seq<string>, r: Rec, fetchMap: Coord -> Option<Bytes>,
                     geocode: Coord -> GeoReply)
    requires RecordStep(s, names, r, fetchMap, geocode).1 == Fetched
    ensures var t := RecordStep(s, names, r, fetchMap, geocode).0;
            fetchMap(r.at).Some? && PlaceName(geocode(r.at)).Ok? &&
            t.maps == s.maps[MapFile(r.key) := fetchMap(r.at).value] &&
            t.places == s.places[PlaceFile(r.key) := PlaceText(PlaceName(geocode(r.at)).value)] &&
            t.places[PlaceFile(r.key)] != "" && !t.sameLocFlag
  {
  }

  /** A failed map request writes nothing. */
  lemma MapFailedWritesNothing(s: Scene, names: seq<string>, r: Rec, fetchMap: Coord -> Option<Bytes>,
                               geocode: Coord -> GeoReply)
    requires RecordStep(s, names, r, fetchMap, geocode).1 == MapFailed
    ensures var t := RecordStep(s, names, r, fetchMap, geocode).0;
            fetchMap(r.at).None? && t.maps == s.maps && t.places == s.places
  {
  }

  /** A flag left set by a failed copy makes the next record that finds no
      cached neighbour skip the fetch, and is cleared by it. */
  lemma StaleFlagSkipsFetch(s: Scene, names: seq<string>, r: Rec, fetchMap: Coord -> Option<Bytes>,
                            geocode: Coord -> GeoReply)
    requires IsListing(names, s.maps) && EndsWith(MapFile(r.key), r.suffix)
    requires s.sameLocFlag && r.path !in s.listResults && !HasMapOf(s.maps, r.suffix)
    ensures RecordStep(s, names, r, fetchMap, geocode) ==
            (s.(mapsHashes := s.mapsHashes[r.path := r.key], listResults := s.listResults + [r.path],
                sameLocFlag := false), StaleFlagSkip)
  {
    FirstMatchFindsMap(names, s.maps, r.suffix);
    ListedEndingMapped(names, s.maps, MapFile(r.key), r.suffix);
  }

  /** A failed copy leaves the flag set; a skip or a reuse leaves it as it
      was; every other action leaves it clear. */
  lemma FlagAfterStep(s: Scene, names: seq<string>, r: Rec, fetchMap: Coord -> Option<Bytes>,
                      geocode: Coord -> GeoReply)
    ensures var (t, a) := RecordStep(s, names, r, fetchMap, geocode);
            (a.CopyFailed? ==> t.sameLocFlag) &&
            (a.Skipped? || a.Reused? ==> t.sameLocFlag == s.sameLocFlag) &&
            (!a.CopyFailed? && !a.Skipped? && !a.Reused? ==> !t.sameLocFlag)
  {
  }

  // ---------------------------------------------------------------------
  // Copying from a cached neighbour.

  /** The stem of a key's map file is the key, and its first 32 characters
      are the digest. */
  lemma StemOfKey(h: Digest, c: Coord)
    requires c.lat >= 0 && c.lon >= 0
    ensures Stem(MapFile(Key(h, c))) == Key(h, c) && Key(h, c)[..32] == h
  {
    DigestChars(h);
    Fmt7Chars(c.lat);
    Fmt7Chars(c.lon);
    StemOfJpg(Key(h, c));
  }

  /** A copy whose source files exist and whose target differs from the
      source gives the target the source's map and place text, touches no
      other file, and clears the flag. */
  lemma CopyStepCopies(s: Scene, name: string, h: Digest)
    requires MapFile(Stem(name)) in s.maps && PlaceFile(Stem(name)) in s.places
    requires Stem(name) != CopyTarget(h, name)
    ensures var target := CopyTarget(h, name);
            CopyStep(s, name, h) ==
            (s.(sameLocFlag := false,
                maps := s.maps[MapFile(target) := s.maps[MapFile(Stem(name))]],
                places := s.places[PlaceFile(target) := s.places[PlaceFile(Stem(name))]]),
             Copied(name))
  {
    FileNamesInjective(Stem(name), CopyTarget(h, name));
  }

  /** A new path whose own map is not listed and whose coordinate ending
      ends a listed name is copied from the first such name. */
  lemma CopyBranch(s: Scene, names: seq<string>, r: Rec, fetchMap: Coord -> Option<Bytes>,
                   geocode: Coord -> GeoReply)
    requires r.path !in s.listResults && MapFile(r.key) !in names && FirstMatch(names, r.suffix) < |names|
    ensures RecordStep(s, names, r, fetchMap, geocode) ==
            CopyStep(s.(mapsHashes := s.mapsHashes[r.path := r.key], listResults := s.listResults + [r.path]),
                     names[FirstMatch(names, r.suffix)], r.digest)
  {
  }

  /** Copying from another picture's cached files of the same location
      gives the new picture its own map and place files with their
      contents, and clears the flag. */
  lemma CopyOfSameLocation(s: Scene, names: seq<string>, path: string, c: Coord, md5: string -> Digest,
                           fetchMap: Coord -> Option<Bytes>, geocode: Coord -> GeoReply, other: Digest)
    requires c.lat >= 0 && c.lon >= 0 && other != md5(path)
    requires path !in s.listResults && MapFile(Key(md5(path), c)) !in names
    requires FirstMatch(names, CoordSuffix(c)) < |names|
    requires names[FirstMatch(names, CoordSuffix(c))] == MapFile(Key(other, c))
    requires MapFile(Key(other, c)) in s.maps && PlaceFile(Key(other, c)) in s.places
    ensures var (t, a) := RecordStep(s, names, RecordOf(path, c, md5), fetchMap, geocode);
            var key := Key(md5(path), c);
            a == Copied(MapFile(Key(other, c))) && !t.sameLocFlag &&
            t.maps == s.maps[MapFile(key) := s.maps[MapFile(Key(other, c))]] &&
            t.places == s.places[PlaceFile(key) := s.places[PlaceFile(Key(other, c))]]
  {
    var h := md5(path);
    var r := RecordOf(path, c, md5);
    CopyBranch(s, names, r, fetchMap, geocode);
    CopyTargetOfKey(h, other, c);
    StemOfKey(other, c);
    StemOfKey(h, c);
    CopyStepCopies(s.(mapsHashes := s.mapsHashes[path := r.key], listResults := s.listResults + [path]),
                   MapFile(Key(other, c)), h);
  }

  /** The ending test is not a coordinate test. When the first listed name
      with the picture's coordinate ending is the map of another location
      (`CacheKeys.SuffixMatchesOtherLatitude`: latitude 11 for latitude 1),
      the picture is copied from it under that location's name, and its own
      `<key>.jpg`, which the dialog later opens for it, is not written. */
  lemma CopyUnderOtherLocation(s: Scene, names: seq<string>, path: string, c: Coord, md5: string -> Digest,
                               fetchMap: Coord -> Option<Bytes>, geocode: Coord -> GeoReply,
                               other: Digest, far: Coord)
    requires c.lat >= 0 && c.lon >= 0 && far.lat >= 0 && far.lon >= 0 && far != c
    requires other != md5(path) && path !in s.listResults && MapFile(Key(md5(path), c)) !in names
    requires FirstMatch(names, CoordSuffix(c)) < |names|
    requires names[FirstMatch(names, CoordSuffix(c))] == MapFile(Key(other, far))
    requires IsListing(names, s.maps) && PlaceFile(Key(other, far)) in s.places
    ensures var (t, a) := RecordStep(s, names, RecordOf(path, c, md5), fetchMap, geocode);
            a == Copied(MapFile(Key(other, far))) && MapFile(Key(md5(path), c)) !in t.maps
  {
    var h := md5(path);
    var r := RecordOf(path, c, md5);
    var name := MapFile(Key(other, far));
    CopyBranch(s, names, r, fetchMap, geocode);
    CopyTargetOfKey(h, other, far);
    StemOfKey(other, far);
    StemOfKey(h, far);
    KeyInjectiveNeq(h, far, c);
    FileNamesInjective(Key(h, far), Key(h, c));
    assert name in s.maps;
    CopyStepCopies(s.(mapsHashes := s.mapsHashes[path := r.key], listResults := s.listResults + [path]),
                   name, h);
  }

  // ---------------------------------------------------------------------
  // The dialog's invariant over its whole lifetime.

  /** The result list holds no path twice and every listed path has a key;
      the coordinate endings whose maps were fetched are distinct, and each
      still ends some cached map name. */
  ghost predicate SceneValid(s: Scene, fetched: seq<string>) {
    Distinct(s.listResults) && (forall p :: p in s.listResults ==> p in s.mapsHashes) &&
    Distinct(fetched) && forall i :: 0 <= i < |fetched| ==> HasMapOf(s.maps, fetched[i])
  }

  lemma HasMapOfGrows(m1: map<string, Bytes>, m2: map<string, Bytes>, suffix: string)
    requires HasMapOf(m1, suffix) && m1.Keys <= m2.Keys
    ensures HasMapOf(m2, suffix)
  {
    var n :| n in m1 && EndsWith(n, suffix);
    assert n in m2;
  }

  /** Each record keeps the invariant, so the map of a location is fetched
      at most once while the dialog is open. */
  lemma RecordStepKeepsValid(s: Scene, fetched: seq<string>, names: seq<string>, r: Rec,
                             fetchMap: Coord -> Option<Bytes>, geocode: Coord -> GeoReply)
    requires IsListing(names, s.maps) && EndsWith(MapFile(r.key), r.suffix) && SceneValid(s, fetched)
    ensures var (t, a) := RecordStep(s, names, r, fetchMap, geocode);
            SceneValid(t, fetched + (if MapWritten(a) then [r.suffix] else []))
  {
    var (t, a) := RecordStep(s, names, r, fetchMap, geocode);
    var f := fetched + (if MapWritten(a) then [r.suffix] else []);
    RecordStepBookkeeping(s, names, r, fetchMap, geocode);
    BookkeptKeepsListing(s, t, r.path, r.key);
    forall i | 0 <= i < |fetched| ensures HasMapOf(t.maps, fetched[i]) {
      HasMapOfGrows(s.maps, t.maps, fetched[i]);
    }
    if MapWritten(a) {
      FetchOnlyWhenUnmapped(s, names, r, fetchMap, geocode);
      assert r.suffix !in fetched;
      assert MapFile(r.key) in t.maps;
      assert HasMapOf(t.maps, r.suffix);
      forall i | 0 <= i < |f| ensures HasMapOf(t.maps, f[i]) {
        if i < |fetched| {
          assert f[i] == fetched[i];
        }
      }
    } else {
      assert f == fetched;
    }
  }

  // ---------------------------------------------------------------------
  // Across the records of one scan.

  /** The key of each record of a scan. */
  function KeysOf(rs: Records, md5: string -> Digest): (keys: seq<string>)
    requires |rs.paths| == |rs.locations|
    ensures |keys| == |rs.paths|
  {
    seq(|rs.paths|, i requires 0 <= i < |rs.paths| => Key(md5(rs.paths[i]), rs.locations[i]))
  }

  /** The `maps_hashes` entries set by a run of records, the last record of
      a path deciding its key. */
  function LastWins<K(!new), V>(paths: seq<K>, keys: seq<V>): (m: map<K, V>)
    requires |paths| == |keys|
    ensures forall p :: p in m <==> p in paths
    decreases |paths|
  {
    if |paths| == 0 then map[]
    else
      var n := |paths| - 1;
      LastWins(paths[..n], keys[..n])[paths[n] := keys[n]]
  }

  /** The key of a path is the key of its last record. */
  lemma {:induction false} LastWinsLast<K(!new), V>(paths: seq<K>, keys: seq<V>, i: nat)
    requires |paths| == |keys| && i < |paths|
    requires forall j :: i < j < |paths| ==> paths[j] != paths[i]
    ensures LastWins(paths, keys)[paths[i]] == keys[i]
    decreases |paths|
  {
    var n := |paths| - 1;
    if i < n {
      LastWinsLast(paths[..n], keys[..n], i);
    }
  }

  /** The paths of `paths` not already in `list`, each once, in order. */
  function AddNew<T(==)>(list: seq<T>, paths: seq<T>): seq<T>
    decreases |paths|
  {
    if |paths| == 0 then []
    else
      var n := |paths| - 1;
      var prev := AddNew(list, paths[..n]);
      if paths[n] in list + prev then prev else prev + [paths[n]]
  }

  /** Appending the new paths keeps the list free of repeats and makes it
      hold exactly the old entries and the scanned paths. */
  lemma {:induction false} AddNewSpec<T>(list: seq<T>, paths: seq<T>)
    requires Distinct(list)
    ensures Distinct(list + AddNew(list, paths))
    ensures forall p :: p in list + AddNew(list, paths) <==> p in list || p in paths
    decreases |paths|
  {
    if |paths| > 0 {
      var n := |paths| - 1;
      var prev := AddNew(list, paths[..n]);
      AddNewSpec(list, paths[..n]);
      assert paths == paths[..n] + [paths[n]];
      if paths[n] !in list + prev {
        DistinctSnoc(list + prev, paths[n]);
        assert list + (prev + [paths[n]]) == (list + prev) + [paths[n]];
      }
    }
  }

  lemma DistinctSnoc<T>(xs: seq<T>, x: T)
    requires Distinct(xs) && x !in xs
    ensures Distinct(xs + [x])
  {
  }

  /** The state after the first `k` records of a scan that started in `s0`:
      their keys recorded, their new paths listed, no cached file lost. */
  ghost predicate ScannedUpTo(s0: Scene, s: Scene, paths: seq<string>, keys: seq<string>, k: nat)
    requires |paths| == |keys| && k <= |paths|
  {
    s.mapsHashes == s0.mapsHashes + LastWins(paths[..k], keys[..k]) &&
    s.listResults == s0.listResults + AddNew(s0.listResults, paths[..k]) &&
    s0.maps.Keys <= s.maps.Keys && s0.places.Keys <= s.places.Keys
  }

  lemma ScannedUpToStep(s0: Scene, s: Scene, t: Scene, paths: seq<string>, keys: seq<string>, k: nat)
    requires |paths| == |keys| && k < |paths|
    requires ScannedUpTo(s0, s, paths, keys, k) && Bookkept(s, t, paths[k], keys[k])
    ensures ScannedUpTo(s0, t, paths, keys, k + 1)
  {
    var lw := LastWins(paths[..k], keys[..k]);
    var prev := AddNew(s0.listResults, paths[..k]);
    LastWinsStep(paths, keys, k);
    AddNewStep(s0.listResults, paths, k);
    MergeUpdate(s0.mapsHashes, lw, paths[k], keys[k]);
    if paths[k] !in s.listResults {
      assert s0.listResults + prev + [paths[k]] == s0.listResults + (prev + [paths[k]]);
    }
  }

  lemma MergeUpdate<K, V>(a: map<K, V>, b: map<K, V>, k: K, v: V)
    ensures (a + b)[k := v] == a + b[k := v]
  {
  }

  lemma LastWinsStep<K(!new), V>(paths: seq<K>, keys: seq<V>, k: nat)
    requires |paths| == |keys| && k < |paths|
    ensures LastWins(paths[..k + 1], keys[..k + 1]) == LastWins(paths[..k], keys[..k])[paths[k] := keys[k]]
  {
    assert paths[..k + 1][..k] == paths[..k] && keys[..k + 1][..k] == keys[..k];
  }

  lemma AddNewStep<T>(list: seq<T>, paths: seq<T>, k: nat)
    requires k < |paths|
    ensures var prev := AddNew(list, paths[..k]);
            AddNew(list, paths[..k + 1]) == if paths[k] in list + prev then prev else prev + [paths[k]]
  {
    assert paths[..k + 1][..k] == paths[..k];
  }

  /** The records of a scan, in report order. */
  function RecordsOf(rs: Records, md5: string -> Digest): (recs: seq<Rec>)
    requires |rs.paths| == |rs.locations|
    ensures |recs| == |rs.paths|
  {
    seq(|rs.paths|, i requires 0 <= i < |rs.paths| => RecordOf(rs.paths[i], rs.locations[i], md5))
  }

  /** The scene and the actions after the passes of the loop for `recs`,
      one after the other from `s`, the i-th pass seeing the listing
      `listings[i]` of `maps/`. */
  function Run(s: Scene, listings: seq<seq<string>>, recs: seq<Rec>, fetchMap: Coord -> Option<Bytes>,
               geocode: Coord -> GeoReply): (run: (Scene, seq<Action>))
    requires |listings| == |recs|
    ensures |run.1| == |recs|
    decreases |recs|
  {
    if |recs| == 0 then (s, [])
    else
      var n := |recs| - 1;
      var prev := Run(s, listings[..n], recs[..n], fetchMap, geocode);
      var step := RecordStep(prev.0, listings[n], recs[n], fetchMap, geocode);
      (step.0, prev.1 + [step.1])
  }

  /** Each listing is one of `maps/` as it stands when its pass starts. */
  ghost predicate Listed(s: Scene, listings: seq<seq<string>>, recs: seq<Rec>, fetchMap: Coord -> Option<Bytes>,
                         geocode: Coord -> GeoReply)
    requires |listings| == |recs|
    decreases |recs|
  {
    |recs| == 0 ||
    var n := |recs| - 1;
    Listed(s, listings[..n], recs[..n], fetchMap, geocode) &&
    IsListing(listings[n], Run(s, listings[..n], recs[..n], fetchMap, geocode).0.maps)
  }

  /** One more pass extends the run by that pass's step. */
  lemma RunSnoc(s: Scene, listings: seq<seq<string>>, recs: seq<Rec>, names: seq<string>, r: Rec,
                fetchMap: Coord -> Option<Bytes>, geocode: Coord -> GeoReply)
    requires |listings| == |recs|
    ensures var prev := Run(s, listings, recs, fetchMap, geocode);
            var step := RecordStep(prev.0, names, r, fetchMap, geocode);
            Run(s, listings + [names], recs + [r], fetchMap, geocode) == (step.0, prev.1 + [step.1])
    ensures Listed(s, listings + [names], recs + [r], fetchMap, geocode) <==>
            Listed(s, listings, recs, fetchMap, geocode) &&
            IsListing(names, Run(s, listings, recs, fetchMap, geocode).0.maps)
  {
    assert (listings + [names])[..|recs|] == listings;
    assert (recs + [r])[..|recs|] == recs;
  }

  /** The pass for the `i`-th record extends the run of the passes before
      it, when its listing is one of `maps/` as those passes left it. */
  lemma RunStep(s0: Scene, s: Scene, t: Scene, listings: seq<seq<string>>, acts: seq<Action>, recs: seq<Rec>,
                i: nat, names: seq<string>, a: Action, fetchMap: Coord -> Option<Bytes>, geocode: Coord -> GeoReply)
    requires i < |recs| && |listings| == i
    requires Listed(s0, listings, recs[..i], fetchMap, geocode)
    requires (s, acts) == Run(s0, listings, recs[..i], fetchMap, geocode)
    requires IsListing(names, s.maps) && (t, a) == RecordStep(s, names, recs[i], fetchMap, geocode)
    ensures Listed(s0, listings + [names], recs[..i + 1], fetchMap, geocode)
    ensures (t, acts + [a]) == Run(s0, listings + [names], recs[..i + 1], fetchMap, geocode)
  {
    TakeOneMore(recs, i);
    RunSnoc(s0, listings, recs[..i], names, recs[i], fetchMap, geocode);
  }

  /** A prefix one longer is the prefix and the next element. */
  lemma TakeOneMore<T>(xs: seq<T>, i: nat)
    requires i < |xs|
    ensures xs[..i + 1] == xs[..i] + [xs[i]]
  {
  }

  /** The action ends the scan: the map request failed, or an exception
      escaped. */
  predicate Fails(a: Action) {
    a.MapFailed? || a.CopyFailed? || a.PlaceFailed?
  }

  /** How the actions `acts` of a scan of `n` records end it with `o`.
      Every record is run unless one fails: then it is the last one run.
      The scan reports the number of records exactly when all of them were
      run and none failed, `ApiCallFail` exactly when the last map request
      failed, and the exception of a failed copy or place lookup
      otherwise. */
  predicate EndsAsReported(acts: seq<Action>, n: nat, o: ScanOutcome) {
    0 < |acts| <= n &&
    (forall i :: 0 <= i < |acts| - 1 ==> !Fails(acts[i])) &&
    (|acts| < n ==> Fails(acts[|acts| - 1])) &&
    var last := acts[|acts| - 1];
    (o.Found? || o == ApiCallFail || o.Failed?) &&
    (o == Found(n) <==> |acts| == n && forall i :: 0 <= i < |acts| ==> !Fails(acts[i])) &&
    (o == ApiCallFail <==> last == MapFailed) &&
    (o.Failed? <==> last.CopyFailed? || last.PlaceFailed?) &&
    (o.Failed? ==> (last.CopyFailed? || last.PlaceFailed?) && o.exc == last.exc)
  }

  /** How a scan of the non-empty records `rs` from `s0` ends in `s`: the
      passes run are those of the first `|acts|` records, with the listings
      `listings`, and `acts` are their actions and end the scan with `o`. */
  ghost predicate ScanEnded(s0: Scene, s: Scene, rs: Records, md5: string -> Digest,
                            fetchMap: Coord -> Option<Bytes>, geocode: Coord -> GeoReply,
                            listings: seq<seq<string>>, acts: seq<Action>, o: ScanOutcome)
    requires |rs.paths| == |rs.locations|
  {
    var recs := RecordsOf(rs, md5);
    EndsAsReported(acts, |recs|, o) && |listings| == |acts| &&
    Listed(s0, listings, recs[..|acts|], fetchMap, geocode) &&
    (s, acts) == Run(s0, listings, recs[..|acts|], fetchMap, geocode)
  }

  /** The passes over the first `k` records set the keys and the result
      list as those records say, and lose no cached file. */
  lemma {:induction false} RunBookkeeping(s0: Scene, listings: seq<seq<string>>, recs: seq<Rec>,
                                          fetchMap: Coord -> Option<Bytes>, geocode: Coord -> GeoReply,
                                          paths: seq<string>, keys: seq<string>, k: nat)
    requires |paths| == |keys| && k <= |paths| && |recs| == |listings| == k
    requires forall i :: 0 <= i < k ==> recs[i].path == paths[i] && recs[i].key == keys[i]
    ensures ScannedUpTo(s0, Run(s0, listings, recs, fetchMap, geocode).0, paths, keys, k)
    decreases k
  {
    if k == 0 {
      assert paths[..0] == [] && keys[..0] == [];
    } else {
      var n := k - 1;
      assert forall i :: 0 <= i < n ==> recs[..n][i] == recs[i];
      RunBookkeeping(s0, listings[..n], recs[..n], fetchMap, geocode, paths, keys, n);
      var prev := Run(s0, listings[..n], recs[..n], fetchMap, geocode);
      RecordStepBookkeeping(prev.0, listings[n], recs[n], fetchMap, geocode);
      ScannedUpToStep(s0, prev.0, Run(s0, listings, recs, fetchMap, geocode).0, paths, keys, n);
    }
  }

  /** A scan keeps the key of every record it ran, the last record of a
      path deciding, appends each new path once, and loses no cached
      file. */
  lemma ScanBookkeeping(s0: Scene, s: Scene, rs: Records, md5: string -> Digest,
                        fetchMap: Coord -> Option<Bytes>, geocode: Coord -> GeoReply,
                        listings: seq<seq<string>>, acts: seq<Action>, o: ScanOutcome)
    requires |rs.paths| == |rs.locations|
    requires ScanEnded(s0, s, rs, md5, fetchMap, geocode, listings, acts, o)
    ensures ScannedUpTo(s0, s, rs.paths, KeysOf(rs, md5), |acts|)
  {
    var recs := RecordsOf(rs, md5);
    var k := |acts|;
    assert forall i :: 0 <= i < k ==> recs[..k][i] == recs[i];
    RunBookkeeping(s0, listings, recs[..k], fetchMap, geocode, rs.paths, KeysOf(rs, md5), k);
  }

  /** A scan that stops at the first failing record reports that
      failure. */
  lemma EndsOnFailure(acts: seq<Action>, n: nat, a: Action)
    requires |acts| < n && Fails(a) && forall i :: 0 <= i < |acts| ==> !Fails(acts[i])
    ensures EndsAsReported(acts + [a], n, if a.MapFailed? then ApiCallFail else Failed(a.exc))
  {
    assert forall i :: 0 <= i < |acts| ==> (acts + [a])[i] == acts[i];
  }

  /** Appending an action that does not fail keeps "no action failed". */
  lemma NoFailureSnoc(acts: seq<Action>, a: Action)
    requires !Fails(a) && forall i :: 0 <= i < |acts| ==> !Fails(acts[i])
    ensures forall i :: 0 <= i < |acts + [a]| ==> !Fails((acts + [a])[i])
  {
  }

  /** A scan that runs all its records, none failing, reports their
      number. */
  lemma EndsWhenAllRun(acts: seq<Action>, n: nat)
    requires |acts| == n > 0 && forall i :: 0 <= i < |acts| ==> !Fails(acts[i])
    ensures EndsAsReported(acts, n, Found(n))
  {
  }

  /** A scan whose every action is a skip reports all its records. */
  lemma AllSkippedReportsAll(acts: seq<Action>, n: nat, o: ScanOutcome)
    requires EndsAsReported(acts, n, o) && forall a :: a in acts ==> a == Skipped
    ensures |acts| == n && o == Found(n)
  {
    assert acts[|acts| - 1] in acts;
  }

  /** After a scan of every record from a repeat-free result list, every
      scanned path is listed. */
  lemma ScannedAllListed(s0: Scene, s: Scene, paths: seq<string>, keys: seq<string>)
    requires |paths| == |keys| && Distinct(s0.listResults) && ScannedUpTo(s0, s, paths, keys, |paths|)
    ensures forall i :: 0 <= i < |paths| ==> paths[i] in s.listResults
  {
    assert paths[..|paths|] == paths;
    AddNewSpec(s0.listResults, paths);
  }

  /** Passes over records whose paths are all listed already skip every
      record: they set keys only, and neither service is asked. */
  lemma {:induction false} RunOfListedSkips(s: Scene, listings: seq<seq<string>>, recs: seq<Rec>,
                                            fetchMap: Coord -> Option<Bytes>, geocode: Coord -> GeoReply,
                                            fetchMap': Coord -> Option<Bytes>, geocode': Coord -> GeoReply)
    requires |listings| == |recs| && forall i :: 0 <= i < |recs| ==> recs[i].path in s.listResults
    ensures var run := Run(s, listings, recs, fetchMap, geocode);
            (forall a :: a in run.1 ==> a == Skipped) && run.0 == s.(mapsHashes := run.0.mapsHashes)
    ensures Run(s, listings, recs, fetchMap, geocode) == Run(s, listings, recs, fetchMap', geocode')
    decreases |recs|
  {
    if |recs| > 0 {
      var n := |recs| - 1;
      assert forall i :: 0 <= i < n ==> recs[..n][i] == recs[i];
      RunOfListedSkips(s, listings[..n], recs[..n], fetchMap, geocode, fetchMap', geocode');
      var prev := Run(s, listings[..n], recs[..n], fetchMap, geocode);
      SkipStep(s, prev.0, listings[n], recs[n], fetchMap, geocode, fetchMap', geocode');
      var step := RecordStep(prev.0, listings[n], recs[n], fetchMap, geocode);
      assert Run(s, listings, recs, fetchMap, geocode) == (step.0, prev.1 + [step.1]);
      assert Run(s, listings, recs, fetchMap', geocode') == (step.0, prev.1 + [step.1]);
    }
  }

  /** A pass over a listed path, from a scene that differs from `s` at most
      in its keys, is a skip that again changes only keys, whatever the
      services answer. */
  lemma SkipStep(s: Scene, t: Scene, names: seq<string>, r: Rec,
                 fetchMap: Coord -> Option<Bytes>, geocode: Coord -> GeoReply,
                 fetchMap': Coord -> Option<Bytes>, geocode': Coord -> GeoReply)
    requires t == s.(mapsHashes := t.mapsHashes) && r.path in s.listResults
    ensures var step := RecordStep(t, names, r, fetchMap, geocode);
            step == RecordStep(t, names, r, fetchMap', geocode') && step.1 == Skipped &&
            step.0 == s.(mapsHashes := step.0.mapsHashes)
  {
    SkipTouchesNothing(t, names, r, fetchMap, geocode);
    SkipTouchesNothing(t, names, r, fetchMap', geocode');
  }

  /** Scanning the same records again, after a scan that found them all,
      asks neither service, writes no file and reports them all again. */
  lemma SecondScanAsksNoService(s0: Scene, s1: Scene, s2: Scene, rs: Records, md5: string -> Digest,
                                fetched: seq<string>,
                                fetchMap1: Coord -> Option<Bytes>, geocode1: Coord -> GeoReply,
                                listings1: seq<seq<string>>, acts1: seq<Action>,
                                fetchMap2: Coord -> Option<Bytes>, geocode2: Coord -> GeoReply,
                                listings2: seq<seq<string>>, acts2: seq<Action>, o2: ScanOutcome,
                                fetchMap': Coord -> Option<Bytes>, geocode': Coord -> GeoReply)
    requires |rs.paths| == |rs.locations| && SceneValid(s0, fetched)
    requires ScanEnded(s0, s1, rs, md5, fetchMap1, geocode1, listings1, acts1, Found(|rs.paths|))
    requires ScanEnded(s1, s2, rs, md5, fetchMap2, geocode2, listings2, acts2, o2)
    ensures o2 == Found(|rs.paths|) && forall a :: a in acts2 ==> a == Skipped
    ensures s2.maps == s1.maps && s2.places == s1.places && s2.listResults == s1.listResults
    ensures (s2, acts2) == Run(s1, listings2, RecordsOf(rs, md5), fetchMap', geocode')
  {
    FoundScanListsAll(s0, s1, rs, md5, fetched, fetchMap1, geocode1, listings1, acts1);
    SecondRunSkips(s1, s2, rs, md5, fetchMap2, geocode2, listings2, acts2, o2, fetchMap', geocode');
  }

  /** A scan that found all its records leaves every one of them listed. */
  lemma FoundScanListsAll(s0: Scene, s1: Scene, rs: Records, md5: string -> Digest, fetched: seq<string>,
                          fetchMap: Coord -> Option<Bytes>, geocode: Coord -> GeoReply,
                          listings: seq<seq<string>>, acts: seq<Action>)
    requires |rs.paths| == |rs.locations| && SceneValid(s0, fetched)
    requires ScanEnded(s0, s1, rs, md5, fetchMap, geocode, listings, acts, Found(|rs.paths|))
    ensures forall i :: 0 <= i < |rs.paths| ==> RecordsOf(rs, md5)[i].path in s1.listResults
  {
    ScanBookkeeping(s0, s1, rs, md5, fetchMap, geocode, listings, acts, Found(|rs.paths|));
    ScannedAllListed(s0, s1, rs.paths, KeysOf(rs, md5));
  }

  /** A scan of records whose paths are all listed already skips them all
      and reports them all, whatever the services would answer. */
  lemma SecondRunSkips(s1: Scene, s2: Scene, rs: Records, md5: string -> Digest,
                       fetchMap: Coord -> Option<Bytes>, geocode: Coord -> GeoReply,
                       listings: seq<seq<string>>, acts: seq<Action>, o: ScanOutcome,
                       fetchMap': Coord -> Option<Bytes>, geocode': Coord -> GeoReply)
    requires |rs.paths| == |rs.locations|
    requires forall i :: 0 <= i < |rs.paths| ==> RecordsOf(rs, md5)[i].path in s1.listResults
    requires ScanEnded(s1, s2, rs, md5, fetchMap, geocode, listings, acts, o)
    ensures o == Found(|rs.paths|) && forall a :: a in acts ==> a == Skipped
    ensures s2.maps == s1.maps && s2.places == s1.places && s2.listResults == s1.listResults
    ensures (s2, acts) == Run(s1, listings, RecordsOf(rs, md5), fetchMap', geocode')
  {
    var recs := RecordsOf(rs, md5);
    var k := |acts|;
    PrefixPaths(recs, k, s1.listResults);
    RunOfListedSkips(s1, listings, recs[..k], fetchMap, geocode, fetchMap', geocode');
    AllSkippedReportsAll(acts, |recs|, o);
    assert recs[..k] == recs;
  }

  /** Every path of a prefix of the records is in the listing when every path is. */
  lemma PrefixPaths(recs: seq<Rec>, k: nat, list: seq<string>)
    requires k <= |recs| && forall i :: 0 <= i < |recs| ==> recs[i].path in list
    ensures forall i :: 0 <= i < k ==> recs[..k][i].path in list
  {
  }

  // ---------------------------------------------------------------------
  // The objects.

  /** The `maps/` and `places/` directories: file name to contents. */
  class CacheDirs {
    var maps: map<string, Bytes>
    var places: map<string, string>

    constructor (maps0: map<string, Bytes>, places0: map<string, string>)
      ensures maps == maps0 && places == places0
    {
      maps := maps0;
      places := places0;
    }

    /** `shutil.copy2('maps/' + src, 'maps/' + dst)` */
    method CopyMap(src: string, dst: string) returns (err: Option<PyException>)
      modifies this
      ensures places == old(places)
      ensures match Copy2(old(maps), src, dst)
              case Ok(m) => maps == m && err == None
              case Raised(e) => maps == old(maps) && err == Some(e)
    {
      if src !in maps {
        return Some(FileNotFoundError);
      }
      if src == dst {
        return Some(SameFileError);
      }
      maps := maps[dst := maps[src]];
      return None;
    }

    /** `shutil.copy2('places/' + src, 'places/' + dst)` */
    method CopyPlace(src: string, dst: string) returns (err: Option<PyException>)
      modifies this
      ensures maps == old(maps)
      ensures match Copy2(old(places), src, dst)
              case Ok(m) => places == m && err == None
              case Raised(e) => places == old(places) && err == Some(e)
    {
      if src !in places {
        return Some(FileNotFoundError);
      }
      if src == dst {
        return Some(SameFileError);
      }
      places := places[dst := places[src]];
      return None;
    }
  }

  /** `os.listdir`: every name of the directory once, in an order the
      model leaves open. */
  method ListDir<T>(dir: map<string, T>) returns (names: seq<string>)
    ensures IsListing(names, dir)
  {
    names := [];
    var rest := dir.Keys;
    while rest != {}
      invariant forall n :: n in dir <==> n in names || n in rest
      invariant forall n :: n in names ==> n !in rest
      invariant Distinct(names)
      decreases rest
    {
      var n :| n in rest;
      names := names + [n];
      rest := rest - {n};
    }
  }

  /** The trace dialog's state that outlives a scan: the result list, the
      key of every scanned path, and the same-location flag. `fetched`
      records, for the proofs, the coordinate endings whose maps were
      fetched. */
  class TraceFilesDialog {
    var listResults: seq<string>
    var mapsHashes: map<string, string>
    var sameLocFlag: bool
    ghost var fetched: seq<string>

    constructor ()
      ensures listResults == [] && mapsHashes == map[] && !sameLocFlag && fetched == []
    {
      listResults := [];
      mapsHashes := map[];
      sameLocFlag := false;
      fetched := [];
    }

    function SceneOf(dirs: CacheDirs): Scene
      reads this, dirs
    {
      Scene(listResults, mapsHashes, sameLocFlag, dirs.maps, dirs.places)
    }

    ghost predicate Valid(dirs: CacheDirs)
      reads this, dirs
    {
      SceneValid(SceneOf(dirs), fetched)
    }

    /** One pass of the scan loop for the record (`path`, `c`), given the
        listing of `maps/`. */
    method ProcessRecord(names: seq<string>, path: string, c: Coord, md5: string -> Digest,
                         fetchMap: Coord -> Option<Bytes>, geocode: Coord -> GeoReply, dirs: CacheDirs)
      returns (a: Action)
      requires IsListing(names, dirs.maps) && Valid(dirs)
      modifies this, dirs
      ensures (SceneOf(dirs), a) == RecordStep(old(SceneOf(dirs)), names, RecordOf(path, c, md5), fetchMap, geocode)
      ensures fetched == old(fetched) + (if MapWritten(a) then [CoordSuffix(c)] else [])
      ensures Valid(dirs)
      ensures Bookkept(old(SceneOf(dirs)), SceneOf(dirs), path, Key(md5(path), c))
      ensures sameLocFlag ==> old(sameLocFlag) || a.CopyFailed?
    {
      ghost var s := SceneOf(dirs);
      var r := RecordOf(path, c, md5);
      a := Decide(names, r, fetchMap, geocode, dirs);
      RecordStepKeepsValid(s, old(fetched), names, r, fetchMap, geocode);
      RecordStepBookkeeping(s, names, r, fetchMap, geocode);
      FlagAfterStep(s, names, r, fetchMap, geocode);
    }

    /** The body of the loop once the record's names are known. */
    method Decide(names: seq<string>, r: Rec, fetchMap: Coord -> Option<Bytes>, geocode: Coord -> GeoReply,
                  dirs: CacheDirs)
      returns (a: Action)
      modifies this, dirs
      ensures (SceneOf(dirs), a) == RecordStep(old(SceneOf(dirs)), names, r, fetchMap, geocode)
      ensures fetched == old(fetched) + (if MapWritten(a) then [r.suffix] else [])
    {
      mapsHashes := mapsHashes[r.path := r.key];
      if r.path in listResults {
        return Skipped;
      }
      listResults := listResults + [r.path];
      if MapFile(r.key) in names {
        return Reused;
      }
      ghost var s2 := SceneOf(dirs);
      var j := 0;
      while j < |names|
        invariant j <= |names| && forall k :: 0 <= k < j ==> !EndsWith(names[k], r.suffix)
        invariant SceneOf(dirs) == s2 && fetched == old(fetched)
      {
        if EndsWith(names[j], r.suffix) {
          assert FirstMatch(names, r.suffix) == j;
          a := CopyFrom(names[j], r.digest, dirs);
          return;
        }
        j := j + 1;
      }
      assert FirstMatch(names, r.suffix) == |names|;
      if sameLocFlag {
        sameLocFlag := false;
        return StaleFlagSkip;
      }
      var image := fetchMap(r.at);
      if image.None? {
        return MapFailed;
      }
      dirs.maps := dirs.maps[MapFile(r.key) := image.value];
      fetched := fetched + [r.suffix];
      var place := PlaceName(geocode(r.at));
      if place.Raised? {
        return PlaceFailed(place.exc);
      }
      dirs.places := dirs.places[PlaceFile(r.key) := PlaceText(place.value)];
      return Fetched;
    }

    /** The copy branch of the loop, from the flag being set to the `break`
        and the flag being cleared after the loop. */
    method CopyFrom(name: string, h: Digest, dirs: CacheDirs) returns (a: Action)
      modifies this, dirs
      ensures (SceneOf(dirs), a) == CopyStep(old(SceneOf(dirs)), name, h)
      ensures fetched == old(fetched) && listResults == old(listResults) && mapsHashes == old(mapsHashes)
    {
      sameLocFlag := true;
      var stem := Stem(name);
      var target := CopyTarget(h, name);
      var err := dirs.CopyMap(MapFile(stem), MapFile(target));
      if err.Some? {
        return CopyFailed(err.value);
      }
      err := dirs.CopyPlace(PlaceFile(stem), PlaceFile(target));
      if err.Some? {
        return CopyFailed(err.value);
      }
      sameLocFlag := false;
      return Copied(name);
    }

    /** `on_scan_button_released`: `isDirectory` says whether the scan text
        names a directory and `report` is the exiftool output for it. A
        report with records always reaches the loop, whose passes and
        actions are `listings` and `acts`. */
    method OnScanButtonReleased(isDirectory: bool, report: string, md5: string -> Digest,
                                fetchMap: Coord -> Option<Bytes>, geocode: Coord -> GeoReply, dirs: CacheDirs)
      returns (o: ScanOutcome, ghost listings: seq<seq<string>>, ghost acts: seq<Action>)
      requires Valid(dirs)
      modifies this, dirs
      ensures Valid(dirs)
      ensures !isDirectory ==> o == NotADirectory && acts == [] && unchanged(this, dirs)
      ensures isDirectory && CheckMetaOf(report).Raised? ==>
                o == Failed(CheckMetaOf(report).exc) && acts == [] && unchanged(this, dirs)
      ensures isDirectory && CheckMetaOf(report).Ok? && |CheckMetaOf(report).value.paths| == 0 ==>
                o == NoGpsData && acts == [] && unchanged(this, dirs)
      ensures isDirectory && CheckMetaOf(report).Ok? && |CheckMetaOf(report).value.paths| > 0 ==>
                var rs := CheckMetaOf(report).value;
                |rs.paths| == |rs.locations| &&
                ScanEnded(old(SceneOf(dirs)), SceneOf(dirs), rs, md5, fetchMap, geocode, listings, acts, o) &&
                (o.Found? ==> sameLocFlag ==> old(sameLocFlag))
    {
      listings, acts := [], [];
      if !isDirectory {
        return NotADirectory, listings, acts;
      }
      var meta := CheckMeta(report);
      if meta.Raised? {
        return Failed(meta.exc), listings, acts;
      }
      var rs := meta.value;
      SameLengths(report);
      if |rs.paths| == 0 {
        return NoGpsData, listings, acts;
      }
      o, listings, acts := ScanLoop(rs, md5, fetchMap, geocode, dirs);
    }

    /** The loop over the records of a non-empty scan. */
    method ScanLoop(rs: Records, md5: string -> Digest, fetchMap: Coord -> Option<Bytes>,
                    geocode: Coord -> GeoReply, dirs: CacheDirs)
      returns (o: ScanOutcome, ghost listings: seq<seq<string>>, ghost acts: seq<Action>)
      requires |rs.paths| == |rs.locations| > 0 && Valid(dirs)
      modifies this, dirs
      ensures Valid(dirs)
      ensures ScanEnded(old(SceneOf(dirs)), SceneOf(dirs), rs, md5, fetchMap, geocode, listings, acts, o)
      ensures o.Found? ==> sameLocFlag ==> old(sameLocFlag)
    {
      ghost var s0 := SceneOf(dirs);
      listings, acts := [], [];
      var i := 0;
      while i < |rs.paths|
        invariant |listings| == |acts| == i <= |rs.paths| && Valid(dirs)
        invariant Listed(s0, listings, RecordsOf(rs, md5)[..|acts|], fetchMap, geocode)
        invariant (SceneOf(dirs), acts) == Run(s0, listings, RecordsOf(rs, md5)[..|acts|], fetchMap, geocode)
        invariant forall j :: 0 <= j < |acts| ==> !Fails(acts[j])
        invariant sameLocFlag ==> old(sameLocFlag)
      {
        var a;
        ghost var acts0 := acts;
        a, listings, acts := ScanPass(s0, rs, i, md5, fetchMap, geocode, dirs, listings, acts);
        if Fails(a) {
          EndsOnFailure(acts0, |rs.paths|, a);
          o := if a.MapFailed? then ApiCallFail else Failed(a.exc);
          return;
        }
        NoFailureSnoc(acts0, a);
        i := i + 1;
      }
      EndsWhenAllRun(acts, |rs.paths|);
      o := Found(|rs.paths|);
    }

    /** One pass of the loop: the listing of `maps/` taken at its start,
        then the record `i`. */
    method ScanPass(ghost s0: Scene, rs: Records, i: nat, md5: string -> Digest, fetchMap: Coord -> Option<Bytes>,
                    geocode: Coord -> GeoReply, dirs: CacheDirs, ghost listings: seq<seq<string>>,
                    ghost acts: seq<Action>)
      returns (a: Action, ghost listings': seq<seq<string>>, ghost acts': seq<Action>)
      requires |rs.paths| == |rs.locations| && |listings| == |acts| == i < |rs.paths| && Valid(dirs)
      requires Listed(s0, listings, RecordsOf(rs, md5)[..|acts|], fetchMap, geocode)
      requires (SceneOf(dirs), acts) == Run(s0, listings, RecordsOf(rs, md5)[..|acts|], fetchMap, geocode)
      modifies this, dirs
      ensures Valid(dirs)
      ensures |listings'| == |acts'| == i + 1 && acts' == acts + [a]
      ensures Listed(s0, listings', RecordsOf(rs, md5)[..|acts'|], fetchMap, geocode)
      ensures (SceneOf(dirs), acts') == Run(s0, listings', RecordsOf(rs, md5)[..|acts'|], fetchMap, geocode)
      ensures sameLocFlag ==> old(sameLocFlag) || a.CopyFailed?
    {
      ghost var recs := RecordsOf(rs, md5);
      var names := ListDir(dirs.maps);
      ghost var s := SceneOf(dirs);
      a := ProcessRecord(names, rs.paths[i], rs.locations[i], md5, fetchMap, geocode, dirs);
      RunStep(s0, s, SceneOf(dirs), listings, acts, recs, i, names, a, fetchMap, geocode);
      listings', acts' := listings + [names], acts + [a];
    }
  }
}
