# metax scan-and-cache pipeline in Dafny

This project models the geotag pipeline of metax, a small photo-metadata
tool. Its four parts are:

- **Report parser** (`check_meta`, module `Report`). It reads exiftool's
  output: a file-marker line (`======== path`) followed by a `GPS Position`
  line gives one record, which is a path and a coordinate.
- **Coordinate converter** (`gps_time2decimal`, module `Coordinates`). It
  turns a sexagesimal position such as `25 deg 5' 16.26" N, 34 deg 46' 29.21" E`
  into two decimal degrees rounded to seven places. It returns the sentinel
  `(0.0, 0.0)` when the cleaned text does not hold exactly one comma. A token
  that is not a number raises `ValueError`; a half with fewer than three
  tokens raises `IndexError`.
- **Place-name chooser** (the template fallback of `get_placename`, module
  `PlaceNames`). It tries three address templates in turn, then falls back
  on the display name cut after four comma-separated pieces. A failed
  request gives the empty string.
- **Scan handler of the trace dialog** (`TraceFilesDlg.on_scan_button_released`,
  module `TraceDialog`). For each record it does one of four things:
  - skips a path already in the result list;
  - reuses a cached map `<md5>_<lat>-<lon>.jpg`;
  - copies a cached map (and its place file) whose name ends with the same
    coordinate text;
  - fetches the map and the place text.

  The dialog keeps the key of every scanned path for display. The location
  shown for a key is its text after the last `_`, with `-` replaced by `, `
  (module `CacheKeys`).

Modules `Outcomes`, `Text` and `Numerals` hold the Python built-ins these use:
- `Outcomes`: exceptions as values, and list comprehensions that may raise;
- `Text`: `str.split`, `strip`, `replace`, `partition`, `startswith` and
  `endswith`;
- `Numerals`: `'%d'`, `'%.7f'`, `float()` on plain numerals, and `round(x, 7)`.

Modelling choices:
- Coordinates after rounding are integers counting units of 1e-7 degree.
- The dialog (`TraceFilesDialog`) and the two cache directories
  (`CacheDirs`, file name to contents) are classes whose methods update
  their fields as the source does.
- Each method is proved against a specification function on values, and
  the promises of the program are proved as lemmas about those functions:
  - `CheckMeta` against `CheckMetaOf`;
  - `GpsToDecimal` against `Gps`;
  - one pass of the scan loop against `RecordStep`;
  - the whole scan against `Run`, the passes one after the other, with the
    outcome tied to the last action (`ScanEnded`).
- `md5sum`, the static-map request and the reverse-geocoding reply are
  function parameters. `os.listdir` is a method whose order is left open.

## Model

| member | source | states |
|---|---|---|
| Outcomes.MapAllValues | metax_tools.py:135-136 | the token list is built exactly when every token converts, and then holds each token's value in order |
| Outcomes.CollectValues | metax_tools.py:134-140 | converting both halves succeeds exactly when each half does; otherwise what escapes is the exception of the first half that raises |
| Outcomes.CollectEach | metax_tools.py:133-140 | the loop appending each converted half gives the same values, or the same exception, as the all-at-once conversion |
| Numerals.Round7 | metax_tools.py:137-139 | `round(x, 7)` is the nearest multiple of 1e-7, the even one on an exact tie as Python's `round` chooses, and is never negative for a nonnegative input |
| Numerals.Round7TieToEven | metax_tools.py:137-139 | an exact tie goes to the even neighbour: 0.00390625 (1/256, exact as a double) rounds down to 0.0039062, and the real 0.00390635 rounds up to 0.0039064 |
| Numerals.FloatValueFmt7 | gui.py:103 | reading back the `%.7f` text of a coordinate gives the coordinate again |
| Numerals.Fmt7Injective | gui.py:103 | two coordinates with the same `%.7f` text are equal |
| Coordinates.Component | metax_tools.py:134-139 | a half converts exactly when it has at least three tokens and every token is a numeral; the value is never negative |
| Coordinates.Clean | metax_tools.py:123-126 | defines the string left after the letters `N`, `W`, `S`, `E` and every `deg` are deleted |
| Coordinates.Dms | metax_tools.py:137-139 | defines degrees plus minutes over 60 plus seconds over 3600 |
| Coordinates.TokenValue | metax_tools.py:135 | a token's value, after the punctuation, ASCII letters and `°` are stripped from both ends, is never negative, and is absent in the `ValueError` case |
| Coordinates.Convert | metax_tools.py:128-140 | a cleaned string without exactly one comma gives the sentinel `(0, 0)`; otherwise the pair of the two converted halves, or the first half's exception |
| Coordinates.Gps | metax_tools.py:113-140 | no coordinate returned is ever negative |
| Coordinates.DeleteHemispheres | metax_tools.py:124-125 | replacing `N`, `W`, `S`, `E` in turn deletes every one of the four letters and nothing else |
| Coordinates.GpsToDecimal | metax_tools.py:113-140 | the converter's loops compute the `Gps` value: sentinel, converted pair, or the escaping exception |
| Coordinates.HundredthsStayOffTies | metax_tools.py:135-139 | whole degrees and minutes with seconds to two places never come within 1/18 of a unit of a tie, so neither the tie rule nor the error of the double decides the rounding |
| Coordinates.SecondsOnATie | metax_tools.py:135-139 | finer seconds can meet a tie: `0 0 14.0625` is exactly 1/256 degree and rounds to the even 0.0039062 |
| Coordinates.ComponentValue | metax_tools.py:137-139 | a converted half is degrees + minutes/60 + seconds/3600 of its first three tokens, rounded to seven places |
| Coordinates.ExtraTokensIgnored | metax_tools.py:135-139 | tokens after the third do not change a half's value, as long as they are numerals |
| Coordinates.BadTokenRaisesValueError | metax_tools.py:135-136 | any token that is not a numeral makes the half raise `ValueError`, even when there are fewer than three tokens |
| Coordinates.ShortHalfRaisesIndexError | metax_tools.py:137-139 | fewer than three numeral tokens raises `IndexError` |
| Coordinates.MinusSignIgnored | metax_tools.py:135 | a leading `-` is stripped as punctuation and never makes a token negative |
| Coordinates.GpsDocstringExample | metax_tools.py:117 | the exiftool example `25 deg 5' 16.26" N, 34 deg 46' 29.21" E` converts to (25.0878500, 34.7747806) |
| Coordinates.GpsPlainExample | metax_tools.py:119 | the plain example `44 26 46, 79 58 56` converts to (44.4461111, 79.9822222) |
| Report.RawLocation | metax_tools.py:86 | the raw location raises `IndexError` exactly when the GPS line has no colon |
| Report.IsRecordStart | metax_tools.py:80-83 | defines a record start: a marker line followed by a line starting with `GPS` |
| Report.PathOf | metax_tools.py:85 | defines the path of a marker line: the text after the first marker, stripped of whitespace |
| Report.Entry | metax_tools.py:85-88 | defines one record: the path, and the converted second `:` field of the next line, or the exception raised while building them |
| Report.Scan | metax_tools.py:75-92 | the loop's records after the first `n` lines, or its first exception; the two lists it builds have equal lengths, at most one entry per line looked at |
| Report.Lines | metax_tools.py:74 | splitting at newlines gives at least one line |
| Report.CheckMetaOf | metax_tools.py:69-93 | defines what `check_meta` returns or raises: the loop over every line but the last |
| Report.CheckMeta | metax_tools.py:69-93 | the parsing loop computes `CheckMetaOf`: the records in report order, or the first exception |
| Report.ReadRecord | metax_tools.py:85-88 | one record is the stripped text after the marker and the converted second `:`-field of the next line |
| Report.ScanRecords | metax_tools.py:75-93 | the k-th path and location come from the k-th marker line followed by a GPS line, in report order |
| Report.ScanOkIff | metax_tools.py:75-93 | the parser returns exactly when every record it meets can be built |
| Report.ScanRaises | metax_tools.py:86-88 | when the parser raises, it raises the exception of the first record that cannot be built |
| Report.ScanFails | metax_tools.py:86-88 | once one record raises, the whole parse raises that exception |
| Report.ScanAllOk | metax_tools.py:75-93 | a parse that returned built every record it met |
| Report.RecordStartsAreMarkers | metax_tools.py:77-83 | line i yields a record exactly when it is not the last line, starts with `========`, and the next line starts with `GPS` |
| Report.SameLengths | metax_tools.py:89-93 | the two tuples have the same length, one entry per record start |
| Report.EmptyReport | metax_tools.py:74-78 | an empty report yields two empty tuples |
| Report.MarkerPath | metax_tools.py:85 | the path of a marker line is what follows the marker, stripped of whitespace |
| PlaceNames.StreetTemplate | metax_tools.py:185-190 | the first template applies exactly when road, house number, city and country all exist |
| PlaceNames.TownTemplate | metax_tools.py:192-202 | the city and village templates apply exactly when road, the town entry and country exist |
| PlaceNames.PlaceName | metax_tools.py:177-206 | a failed request gives `''`; `KeyError` escapes exactly when no template applies and there is no display name |
| PlaceNames.DisplayNameCut | metax_tools.py:204-205 | defines the display name cut to its first four comma-separated pieces |
| PlaceNames.DisplayNameCutPrefix | metax_tools.py:204-206 | the display-name fallback is a prefix of the display name with at most three commas (exactly three if it had that many), and the whole name when it had at most three |
| PlaceNames.StreetWins | metax_tools.py:185-190 | with all four entries present the street template is returned |
| PlaceNames.NoHouseNumberUsesCity | metax_tools.py:191-196 | without a house number, the road-city-country template is returned |
| PlaceNames.NoCityUsesVillage | metax_tools.py:197-202 | without a city, the road-village-country template is returned |
| PlaceNames.NoRoadUsesDisplayName | metax_tools.py:203-206 | without a road or a country, the cut display name is returned |
| PlaceNames.EmptyPlaceOnlyWhen | metax_tools.py:177-206 | the place text is empty only for a failed request or an empty cut display name |
| CacheKeys.KeyInjective | gui.py:103 | distinct (digest, location) pairs never share a key |
| CacheKeys.CoordText | gui.py:103 | defines the `%.7f-%.7f` text of a location |
| CacheKeys.Key | gui.py:103 | defines a picture's key: its digest, `_` and its location's text |
| CacheKeys.MapFile | gui.py:111 | defines a key's map file name, `<key>.jpg` |
| CacheKeys.PlaceFile | gui.py:135 | defines a key's place file name, `<key>.txt` |
| CacheKeys.CoordSuffix | gui.py:116 | defines the `%.7f-%.7f.jpg` ending a listed map name is tested against |
| CacheKeys.Stem | gui.py:119 | defines a listed name with every `.jpg` deleted |
| CacheKeys.CopyTarget | gui.py:121-122 | defines the copies' stem: the new digest, then the listed stem from its 33rd character on |
| CacheKeys.LocationText | gui.py:159 | defines the location shown for a key: its last `_` field with `-` replaced by `, ` |
| CacheKeys.KeyInjectiveNeq | gui.py:103 | one picture at two different locations gets two different keys |
| CacheKeys.StemOfJpg | gui.py:119 | deleting `.jpg` from a name that ends with it and has no other `j` leaves the rest |
| CacheKeys.CoordSuffixInjective | gui.py:116 | two locations never search for the same `%.7f-%.7f.jpg` ending, so a distinct list of searched endings has at most one entry per location |
| CacheKeys.MapFileEndsWithSuffix | gui.py:111-116 | a picture's own map file name ends with the coordinate text searched for |
| CacheKeys.LocationTextOfKey | gui.py:159 | the location shown for a key is its latitude and longitude joined by `, ` |
| CacheKeys.CopyTargetOfKey | gui.py:119-122 | copying another picture's files of the same location names the copies with exactly the new picture's key |
| CacheKeys.SuffixMatchesOtherLatitude | gui.py:115-122 | the map for latitude 11 matches the ending searched for latitude 1, and its copies do not get the new picture's key |
| CacheKeys.FileNamesInjective | gui.py:121-122 | distinct stems give distinct map and place file names |
| TraceDialog.Copy2Spec | gui.py:121-122 | a copy fails exactly when the source is missing or is the destination; otherwise the destination gets the source's contents and nothing else changes |
| TraceDialog.Copy2 | gui.py:121-122 | a copy succeeds exactly when the source exists and is not the destination |
| TraceDialog.RecordOf | gui.py:101-103 | a record's own map name ends with the coordinate ending searched for among the cached maps |
| TraceDialog.CopyStep | gui.py:118-126 | the copy branch either copies from the listed name or fails with an exception, and the flag stays set exactly when it fails |
| TraceDialog.FetchStep | gui.py:128-139 | the map request failing is `MapFailed`; the map and place both succeeding is `Fetched`; a place lookup raising is `PlaceFailed`; a written map is in `maps/` |
| TraceDialog.RecordStep | gui.py:98-139 | one pass sets the path's key, skips exactly when the path is already listed, and reuses exactly when the picture's own map is listed |
| TraceDialog.PlaceText | gui.py:136-139 | the place file is never empty, and holds the place text whenever there is one |
| TraceDialog.FirstMatch | gui.py:115-116 | the copy source is the first listed name ending with the coordinate text |
| TraceDialog.RecordStepBookkeeping | gui.py:101-109 | every record reached sets its path's key before any test, appends only a new path, and removes no cached file |
| TraceDialog.CopyStepKeepsFiles | gui.py:118-123 | a copy leaves the result list and the keys alone and removes no file |
| TraceDialog.FetchStepKeepsFiles | gui.py:128-139 | a fetch leaves the list, the keys and the flag alone and removes no file |
| TraceDialog.BookkeptKeepsListing | gui.py:103-109 | the result list never holds a path twice, and every listed path has a key |
| TraceDialog.SkipTouchesNothing | gui.py:105-109 | a path already listed only has its key reset: no fetch, no write |
| TraceDialog.ReuseTouchesNothing | gui.py:111-113 | a picture whose own map is listed is only added to the list: no fetch, no write |
| TraceDialog.FirstMatchFindsMap | gui.py:98-116 | some listed name ends with the coordinate text exactly when a cached map does |
| TraceDialog.FetchOnlyWhenUnmapped | gui.py:105-128 | the map service is asked exactly when the path is new, no cached map ends with the coordinate text, and the flag is clear |
| TraceDialog.NoServiceCallWhenMapped | gui.py:111-126 | with a matching cached map, what happens does not depend on the map or place services |
| TraceDialog.FetchedFiles | gui.py:128-139 | after a fetch `<key>.jpg` holds the map, `<key>.txt` a never-empty place text, and the flag is clear |
| TraceDialog.MapFailedWritesNothing | gui.py:128-130 | a failed map request writes no file |
| TraceDialog.StaleFlagSkipsFetch | gui.py:118-126 | a flag left set by a failed copy makes the next record without a match skip the fetch, and clears the flag |
| TraceDialog.FlagAfterStep | gui.py:118-126 | a failed copy leaves the flag set, a skip or reuse leaves it as it was, anything else clears it |
| TraceDialog.StemOfKey | gui.py:119-121 | the stem of a key's map file is the key, and its first 32 characters are the digest |
| TraceDialog.CopyStepCopies | gui.py:118-126 | a copy with an existing source and a different target gives the target the source's map and place text and clears the flag |
| TraceDialog.CopyBranch | gui.py:115-123 | a new path with no own map but a matching name is copied from the first match |
| TraceDialog.CopyOfSameLocation | gui.py:115-126 | copying from another picture at the same location gives the new picture its own map and place files with their contents |
| TraceDialog.CopyUnderOtherLocation | gui.py:115-122 | when the match is another location's map, the copies carry that location's name and the picture's own `<key>.jpg` is not written |
| TraceDialog.RecordStepKeepsValid | gui.py:96-139 | the dialog's invariant holds after every record: no repeated path, and the map of a coordinate text is fetched at most once |
| TraceDialog.KeysOf | gui.py:101-103 | there is one key per record |
| TraceDialog.LastWins | gui.py:103 | the keyed paths are exactly the scanned ones |
| TraceDialog.LastWinsLast | gui.py:96-103 | a path's key is the key of its last record |
| TraceDialog.AddNewSpec | gui.py:105-106 | appending a scan's new paths keeps the list free of repeats and makes it hold exactly the old entries and the scanned paths |
| TraceDialog.ScannedUpToStep | gui.py:96-109 | after each record, the keys and the list are those of the records so far |
| TraceDialog.RecordsOf | gui.py:96-103 | there is one record per path of the scan |
| TraceDialog.Run | gui.py:96-139 | the passes over the records, one after the other, give one action per record |
| TraceDialog.RunSnoc | gui.py:96-98 | one more pass extends the run by that pass's step, its listing taken from `maps/` as the earlier passes left it |
| TraceDialog.RunStep | gui.py:96-139 | the pass for the i-th record extends the run of the passes before it |
| TraceDialog.RunBookkeeping | gui.py:96-109 | the passes over the first k records set the keys and the result list as those records say, and lose no cached file |
| TraceDialog.ScanBookkeeping | gui.py:96-109 | a scan keeps the key of every record it ran, the last record of a path deciding; it appends each new path once and loses no cached file |
| TraceDialog.EndsOnFailure | gui.py:128-130 | a scan that stops at the first failing record reports `ApiCallFail` for a failed map request and the exception otherwise |
| TraceDialog.EndsWhenAllRun | gui.py:140-142 | a scan that runs every record, none failing, reports their number |
| TraceDialog.AllSkippedReportsAll | gui.py:105-109 | a scan whose every action is a skip runs every record and reports their number |
| TraceDialog.ScannedAllListed | gui.py:105-106 | after a scan of every record, every scanned path is in the result list |
| TraceDialog.RunOfListedSkips | gui.py:105-109 | passes over records whose paths are all listed skip every record, change nothing but keys, and give the same result whatever the services answer |
| TraceDialog.FoundScanListsAll | gui.py:96-142 | a scan that found all its records leaves every one of them listed |
| TraceDialog.SecondRunSkips | gui.py:96-142 | a scan of records that are all listed skips and reports them all, whatever the services answer |
| TraceDialog.SecondScanAsksNoService | gui.py:77-142 | scanning the same records again after a scan that found them all asks neither service, writes no file and reports them all again |
| TraceDialog.CacheDirs.CopyMap | gui.py:121 | the map copy updates `maps/` as `Copy2` does and leaves `places/` alone |
| TraceDialog.CacheDirs.CopyPlace | gui.py:122 | the place copy updates `places/` as `Copy2` does and leaves `maps/` alone |
| TraceDialog.ListDir | gui.py:98 | the listing holds every file of the directory exactly once |
| TraceDialog.TraceFilesDialog.constructor | gui.py:34-50 | the dialog starts with an empty list, no keys and the flag clear |
| TraceDialog.TraceFilesDialog.ProcessRecord | gui.py:98-139 | one pass of the loop does what `RecordStep` says, keeps the invariant, and sets the path's key |
| TraceDialog.TraceFilesDialog.Decide | gui.py:103-139 | the tests and actions of one pass, in the source's order, match `RecordStep` |
| TraceDialog.TraceFilesDialog.CopyFrom | gui.py:115-126 | the copy branch, flag included, matches `CopyStep` |
| TraceDialog.TraceFilesDialog.ScanLoop | gui.py:96-142 | the new state is `Run` of the passes run, each with a listing of `maps/` as it then stood. Every record runs unless one fails, and that one is the last. The outcome is the number of records exactly when all ran and none failed, `ApiCallFail` exactly when the last map request failed, and otherwise the exception of the failed copy or place lookup |
| TraceDialog.TraceFilesDialog.ScanPass | gui.py:98-139 | one pass lists `maps/` and runs the record, extending the run by one step |
| TraceDialog.TraceFilesDialog.OnScanButtonReleased | gui.py:77-142 | not a directory, or no GPS data: nothing changes. A parse exception escapes with nothing changed. A report with records always reaches the loop and ends as `ScanEnded` says, keeping the invariant |

## Left out

- The Qt presentation is not modelled: dialog setup, buttons, check boxes, image loading, status-label text and colours (gui.py:32-75, 144-186 apart from line 159).
- Running exiftool/grep, fdupes, unzip and `md5sum` is not modelled. The report text is an input, and the digest is a function parameter returning 32 lowercase hexadecimal digits.
- The `unzip` and duplicate-removal flags of `check_meta` are not modelled: they only select shell commands. `convert_gps` is always true, as at its only caller.
- The HTTP requests and JSON decoding of `get_map` and `get_placename` are not modelled. The map request is a function giving the image or nothing. The geocoding reply arrives decoded, or as the transport failure. An exception from `requests` or from `json.load` is not modelled.
- JSON values other than strings in the address dictionary are not modelled: every entry is a string.
- Reading the API key and changing directory at start-up are not modelled: they are process set-up.
- Numerals.FloatValue: only digits with at most one point are read. Exponents, signs that survive stripping, underscores, `inf`/`nan` and non-ASCII digits count as the `ValueError` case, whereas Python's `float()` accepts some of them.
- Numerals.Round7: rounds the exact real sum, ties to even. Python rounds the double nearest that sum, so a sum within a double's error of a tie, but not on it, may round the other way. `Coordinates.HundredthsStayOffTies` shows that exiftool-shaped input (whole degrees and minutes, seconds to two places) stays far from every tie.
- Floating-point `%.7f` is not modelled: the key text is printed from the already-rounded fixed-point value.
- The identity test `lines[i] is lines[-1]` (metax_tools.py:77) is modelled as "stop before the last line". CPython can also make an earlier line identical to the last one (for example interned empty strings), which stops the loop earlier; that is not modelled.
- The prime-symbol example of the docstring (metax_tools.py:118) is not modelled as a working case, since `′` and `″` are not stripped.
- TraceDialog.Copy2Spec: `shutil.copy2` copies contents only here. Metadata and permissions are not modelled.
- TraceDialog.ListDir: the order of `os.listdir` is left open. The proofs hold for every order; which cached map is copied from depends on it.
- The function parameters for the digest, the map request and the geocoding reply are deterministic: the same argument gives the same answer.
- TraceDialog.TraceFilesDialog.OnScanButtonReleased: `os.path.isdir` is a boolean parameter. The 'Please wait' and success messages are not modelled; the outcome carries the count the success message prints.
- TraceDialog.RecordStepKeepsValid: the record of fetched maps is kept as the coordinate texts searched for (`CoordSuffix`), not as coordinates. The texts are distinct, and `CacheKeys.CoordSuffixInjective` turns that into at most one map request per coordinate.
  - Whether a picture gets files under its own location depends on the order of the records. A map name ending in another location's text also matches: latitude 11's map name ends with latitude 1's text.
  - If latitude 11 is fetched first, a latitude-1 record copies that map under latitude 11's name and requests none (`CacheKeys.SuffixMatchesOtherLatitude`, `TraceDialog.CopyUnderOtherLocation`).
  - If latitude 1 is fetched first, both maps are requested.
- A missing `maps/` or `places/` directory is not modelled. Without it, `os.listdir('maps/')` (gui.py:98) and the copies raise.
- Write errors are not modelled: the map file written by `get_map` (metax_tools.py:160-162) and the place file are always written.
