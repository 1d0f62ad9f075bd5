/** The report parser `check_meta`: exiftool's output, filtered by grep down to
    its `========` file-marker lines and `GPS Position` lines, becomes the list
    of scanned file paths and the list of their converted coordinates.

    The report text is an input here; running exiftool, fdupes and unzip is
    not part of this model. The converter is always applied, as it is for the
    only caller (`convert_gps=True`). */
module Report {
  import opened Outcomes
  import opened Text
  import opened Coordinates

  /** exiftool's marker in front of each file name. */
  const Marker: string := "========"

  /** The start of the line holding a file's position. */
  const GpsPrefix: string := "GPS"

  /** `(tuple(filepathes), tuple(locations))` */
  datatype Records = Records(paths: seq<string>, locations: seq<Coord>)

  /** Line `i` opens a record: it is a marker line and the next line is a GPS
      line. */
  predicate IsRecordStart(lines: seq<string>, i: nat)
    requires i + 1 < |lines|
  {
    StartsWith(lines[i], Marker) && StartsWith(lines[i + 1], GpsPrefix)
  }

  /** `line.partition('========')[2].strip()` */
  function PathOf(line: string): string {
    Strip(AfterFirst(line, Marker), Whitespace)
  }

  /** `line.split(':')[1].strip()`, `IndexError` when there is no colon. */
  function RawLocation(line: string): (r: Result<string>)
    ensures r.Raised? <==> ':' !in line
    ensures r.Raised? ==> r.exc == IndexError
  {
    var fields := Split(line, ':');
    if |fields| < 2 then
      assert Count(line, ':') == 0;
      NoCountNotIn(line, ':');
      Raised(IndexError)
    else
      CountInPositive(line, ':', fields);
      Ok(Strip(fields[1], Whitespace))
  }

  /** The record opened at line `i`: the path and the converted location, or
      the exception that escapes while building it. */
  function Entry(lines: seq<string>, i: nat, convert: string -> Result<Coord>): Result<(string, Coord)>
    requires i + 1 < |lines|
  {
    match RawLocation(lines[i + 1])
    case Raised(e) => Raised(e)
    case Ok(raw) =>
      match convert(raw)
      case Raised(e) => Raised(e)
      case Ok(c) => Ok((PathOf(lines[i]), c))
  }

  /** The record starts among the first `n` lines, in report order. */
  function StartsBelow(lines: seq<string>, n: nat): (r: seq<nat>)
    requires n < |lines|
    ensures forall k :: 0 <= k < |r| ==> r[k] < n && IsRecordStart(lines, r[k])
    ensures forall k, l :: 0 <= k < l < |r| ==> r[k] < r[l]
  {
    if n == 0 then []
    else if IsRecordStart(lines, n - 1) then StartsBelow(lines, n - 1) + [n - 1]
    else StartsBelow(lines, n - 1)
  }

  /** What the loop has built after looking at the first `n` lines: the
      records in order, or the first exception. The converter is a parameter
      so that what is proved here holds whatever it computes; the parser
      itself uses `Gps`. */
  function Scan(lines: seq<string>, n: nat, convert: string -> Result<Coord>): (r: Result<Records>)
    requires n < |lines|
    ensures r.Ok? ==> |r.value.paths| == |r.value.locations| <= n
  {
    if n == 0 then Ok(Records([], []))
    else
      match Scan(lines, n - 1, convert)
      case Raised(e) => Raised(e)
      case Ok(rs) =>
        if !IsRecordStart(lines, n - 1) then Ok(rs)
        else
          match Entry(lines, n - 1, convert)
          case Raised(e) => Raised(e)
          case Ok(entry) => Ok(Records(rs.paths + [entry.0], rs.locations + [entry.1]))
  }

  /** `report.split('\n')` */
  function Lines(report: string): (lines: seq<string>)
    ensures |lines| >= 1
  {
    Split(report, '\n')
  }

  /** What `check_meta` returns or raises for a report: the loop stops before
      the last line, so every line but the last is looked at. */
  function CheckMetaOf(report: string): Result<Records> {
    Scan(Lines(report), |Lines(report)| - 1, Gps)
  }

  /** The parsing loop of `check_meta` over the report text. */
  method CheckMeta(report: string) returns (r: Result<Records>)
    ensures r == CheckMetaOf(report)
  {
    var lines := Split(report, '\n');
    assert CheckMetaOf(report) == Scan(lines, |lines| - 1, Gps);
    var filepathes: seq<string> := [];
    var locations: seq<Coord> := [];
    var i := 0;
    while i < |lines|
      invariant 0 <= i <= |lines| - 1
      invariant Scan(lines, i, Gps) == Ok(Records(filepathes, locations))
      decreases |lines| - i
    {
      if i == |lines| - 1 {
        break;
      }
      if !(StartsWith(lines[i], Marker) && StartsWith(lines[i + 1], GpsPrefix)) {
        ScanSkip(lines, i, Gps);
        i := i + 1;
        continue;
      }
      var entry := ReadRecord(lines, i);
      if entry.Raised? {
        ScanFails(lines, i, Gps, entry.exc);
        return Raised(entry.exc);
      }
      ScanAppend(lines, i, Gps, entry.value);
      filepathes := filepathes + [entry.value.0];
      locations := locations + [entry.value.1];
      i := i + 1;
    }
    return Ok(Records(filepathes, locations));
  }

  /** The body of the loop for a record start: the name after the marker,
      the second `:`-field of the next line, and its conversion. */
  method ReadRecord(lines: seq<string>, i: nat) returns (entry: Result<(string, Coord)>)
    requires i + 1 < |lines|
    ensures entry == Entry(lines, i, Gps)
  {
    var name := Strip(AfterFirst(lines[i], Marker), Whitespace);
    var fields := Split(lines[i + 1], ':');
    if |fields| < 2 {
      return Raised(IndexError);
    }
    var loc := Strip(fields[1], Whitespace);
    var coord := GpsToDecimal(loc);
    if coord.Raised? {
      return Raised(coord.exc);
    }
    return Ok((name, coord.value));
  }

  // ---------------------------------------------------------------------
  // One step of the loop.

  lemma ScanSkip(lines: seq<string>, i: nat, convert: string -> Result<Coord>)
    requires i + 1 < |lines| && Scan(lines, i, convert).Ok? && !IsRecordStart(lines, i)
    ensures Scan(lines, i + 1, convert) == Scan(lines, i, convert)
  {
  }

  lemma ScanAppend(lines: seq<string>, i: nat, convert: string -> Result<Coord>, entry: (string, Coord))
    requires i + 1 < |lines| && Scan(lines, i, convert).Ok? && IsRecordStart(lines, i)
    requires Entry(lines, i, convert) == Ok(entry)
    ensures Scan(lines, i + 1, convert) ==
              Ok(Records(Scan(lines, i, convert).value.paths + [entry.0],
                         Scan(lines, i, convert).value.locations + [entry.1]))
  {
  }

  /** Once a record cannot be built, the whole parse raises what it raised. */
  lemma ScanFails(lines: seq<string>, i: nat, convert: string -> Result<Coord>, e: PyException)
    requires i + 1 < |lines| && Scan(lines, i, convert).Ok? && IsRecordStart(lines, i)
    requires Entry(lines, i, convert) == Raised(e)
    ensures Scan(lines, |lines| - 1, convert) == Raised(e)
  {
    ScanStaysRaised(lines, i + 1, |lines| - 1, convert);
  }

  lemma {:induction false} ScanStaysRaised(lines: seq<string>, n: nat, m: nat, convert: string -> Result<Coord>)
    requires n <= m < |lines| && Scan(lines, n, convert).Raised?
    ensures Scan(lines, m, convert) == Scan(lines, n, convert)
    decreases m - n
  {
    if n < m {
      ScanStaysRaised(lines, n, m - 1, convert);
    }
  }

  // ---------------------------------------------------------------------
  // Helpers about counting.

  lemma {:induction false} NoCountNotIn(s: string, c: char)
    requires Count(s, c) == 0
    ensures c !in s
    decreases |s|
  {
    if |s| > 0 {
      NoCountNotIn(s[1..], c);
      assert s == [s[0]] + s[1..];
    }
  }

  lemma {:induction false} CountInPositive(s: string, c: char, fields: seq<string>)
    requires fields == Split(s, c) && |fields| >= 2
    ensures c in s
    decreases |s|
  {
    assert |s| > 0;
    if s[0] != c {
      CountInPositive(s[1..], c, Split(s[1..], c));
    }
  }

  // ---------------------------------------------------------------------
  // What the parser promises.

  /** Every record start contributes one entry. */
  predicate RecordsMatch(lines: seq<string>, starts: seq<nat>, rs: Records, convert: string -> Result<Coord>)
    requires forall k :: 0 <= k < |starts| ==> starts[k] + 1 < |lines|
  {
    |rs.paths| == |rs.locations| == |starts| &&
    forall k :: 0 <= k < |starts| ==> Entry(lines, starts[k], convert) == Ok((rs.paths[k], rs.locations[k]))
  }

  lemma RecordsMatchExtend(lines: seq<string>, starts: seq<nat>, rs: Records, i: nat, p: string, c: Coord,
                           convert: string -> Result<Coord>)
    requires forall k :: 0 <= k < |starts| ==> starts[k] + 1 < |lines|
    requires i + 1 < |lines| && RecordsMatch(lines, starts, rs, convert)
    requires Entry(lines, i, convert) == Ok((p, c))
    ensures RecordsMatch(lines, starts + [i], Records(rs.paths + [p], rs.locations + [c]), convert)
  {
    var rs' := Records(rs.paths + [p], rs.locations + [c]);
    forall k | 0 <= k < |starts| + 1
      ensures Entry(lines, (starts + [i])[k], convert) == Ok((rs'.paths[k], rs'.locations[k]))
    {
      if k < |starts| {
        assert (starts + [i])[k] == starts[k];
      }
    }
  }

  /** Record by record, the `k`-th path and location come from the `k`-th
      record start of the report, in the order the marker lines appear. */
  lemma {:induction false} ScanRecords(lines: seq<string>, n: nat, convert: string -> Result<Coord>)
    requires n < |lines| && Scan(lines, n, convert).Ok?
    ensures RecordsMatch(lines, StartsBelow(lines, n), Scan(lines, n, convert).value, convert)
    decreases n
  {
    if n > 0 {
      ScanRecords(lines, n - 1, convert);
      if IsRecordStart(lines, n - 1) {
        var entry := Entry(lines, n - 1, convert).value;
        RecordsMatchExtend(lines, StartsBelow(lines, n - 1), Scan(lines, n - 1, convert).value,
                           n - 1, entry.0, entry.1, convert);
      }
    }
  }

  /** The `k`-th record start is the first whose record cannot be built, and
      building it raises `e`. */
  predicate FirstFailure(lines: seq<string>, starts: seq<nat>, k: nat, e: PyException,
                         convert: string -> Result<Coord>)
    requires forall j :: 0 <= j < |starts| ==> starts[j] + 1 < |lines|
  {
    k < |starts| && Entry(lines, starts[k], convert) == Raised(e) &&
    forall l :: 0 <= l < k ==> Entry(lines, starts[l], convert).Ok?
  }

  /** The parser succeeds exactly when every record can be built. */
  lemma ScanOkIff(lines: seq<string>, n: nat, convert: string -> Result<Coord>)
    requires n < |lines|
    ensures Scan(lines, n, convert).Ok? <==>
              forall k :: 0 <= k < |StartsBelow(lines, n)| ==> Entry(lines, StartsBelow(lines, n)[k], convert).Ok?
  {
    if Scan(lines, n, convert).Raised? {
      var k := ScanRaises(lines, n, convert);
      assert Entry(lines, StartsBelow(lines, n)[k], convert).Raised?;
    } else {
      ScanRecords(lines, n, convert);
    }
  }

  /** When the parser raises, what escapes is the exception of the first
      record that cannot be built; the result names that record. */
  lemma {:induction false} ScanRaises(lines: seq<string>, n: nat, convert: string -> Result<Coord>)
    returns (k: nat)
    requires n < |lines| && Scan(lines, n, convert).Raised?
    ensures FirstFailure(lines, StartsBelow(lines, n), k, Scan(lines, n, convert).exc, convert)
    decreases n
  {
    var starts, prev := StartsBelow(lines, n), StartsBelow(lines, n - 1);
    StartsBelowStep(lines, n);
    if Scan(lines, n - 1, convert).Raised? {
      k := ScanRaises(lines, n - 1, convert);
      assert starts[k] == prev[k];
      assert forall l :: 0 <= l < k ==> starts[l] == prev[l];
    } else {
      k := |prev|;
      ScanRecords(lines, n - 1, convert);
      assert forall l :: 0 <= l < k ==> starts[l] == prev[l];
    }
  }

  /** The record starts below `n` extend those below `n - 1` by at most `n - 1`. */
  lemma StartsBelowStep(lines: seq<string>, n: nat)
    requires 0 < n < |lines|
    ensures StartsBelow(lines, n) ==
              if IsRecordStart(lines, n - 1) then StartsBelow(lines, n - 1) + [n - 1] else StartsBelow(lines, n - 1)
  {
  }

  /** A scan that succeeded built every record it met. */
  lemma ScanAllOk(lines: seq<string>, n: nat, convert: string -> Result<Coord>)
    requires n < |lines| && Scan(lines, n, convert).Ok?
    ensures forall k :: 0 <= k < |StartsBelow(lines, n)| ==> Entry(lines, StartsBelow(lines, n)[k], convert).Ok?
  {
    ScanRecords(lines, n, convert);
  }

  /** Every record start below `n` is listed. */
  lemma {:induction false} StartsBelowComplete(lines: seq<string>, n: nat, i: nat)
    requires n < |lines| && i < n && IsRecordStart(lines, i)
    ensures i in StartsBelow(lines, n)
    decreases n
  {
    if i < n - 1 {
      StartsBelowComplete(lines, n - 1, i);
    }
  }

  /** A record is emitted for line `i` only when it is a marker line followed
      by a GPS line; a marker line followed by anything else adds nothing. */
  lemma RecordStartsAreMarkers(report: string, i: nat)
    ensures var lines := Lines(report);
            i in StartsBelow(lines, |lines| - 1) <==>
              i + 1 < |lines| && StartsWith(lines[i], Marker) && StartsWith(lines[i + 1], GpsPrefix)
  {
    var lines := Lines(report);
    if i + 1 < |lines| && IsRecordStart(lines, i) {
      StartsBelowComplete(lines, |lines| - 1, i);
    }
  }

  /** The two tuples always have the same length, one entry per record. */
  lemma SameLengths(report: string)
    requires CheckMetaOf(report).Ok?
    ensures var rs := CheckMetaOf(report).value;
            |rs.paths| == |rs.locations| == |StartsBelow(Lines(report), |Lines(report)| - 1)|
  {
    ScanRecords(Lines(report), |Lines(report)| - 1, Gps);
  }

  /** An empty report yields two empty tuples. */
  lemma EmptyReport()
    ensures CheckMetaOf("") == Ok(Records([], []))
  {
    assert Lines("") == [""];
  }

  /** The path of a record is what follows the marker, stripped. */
  lemma {:induction false} MarkerPath(line: string)
    requires StartsWith(line, Marker)
    ensures PathOf(line) == Strip(line[|Marker|..], Whitespace)
  {
  }
}
