/** The sexagesimal-to-decimal converter `gps_time2decimal`: exiftool's
    "GPS Position" value, such as `25 deg 5' 16.26" N, 34 deg 46' 29.21" E`,
    becomes a (latitude, longitude) pair in decimal degrees rounded to seven
    places. */
module Coordinates {
  import opened Outcomes
  import opened Text
  import opened Numerals

  /** A rounded (latitude, longitude) pair, each in units of 1e-7 degree. */
  datatype Coord = Coord(lat: int, lon: int)

  /** The pair returned when the value does not split into two halves. */
  const Sentinel: Coord := Coord(0, 0)

  /** The hemisphere letters deleted before anything else. */
  const Hemispheres: string := "NWSE"

  /** What is stripped from both ends of each token before `float()`. */
  const TokenJunk: set<char> := Punctuation + AsciiLetters + {'°'}

  /** The string after the hemisphere letters and every `deg` are deleted. */
  function Clean(coor: string): string {
    ReplaceAll(Without(coor, {'N', 'W', 'S', 'E'}), "deg", "")
  }

  /** Degrees, minutes and seconds combined into degrees. */
  function Dms(d: real, m: real, s: real): real {
    d + m / 60.0 + s / 3600.0
  }

  /** `float(v.strip(junk))` for one token, None for the `ValueError` case. */
  function TokenValue(v: string): (r: Option<real>)
    ensures r.Some? ==> r.value >= 0.0
  {
    FloatValue(Strip(v, TokenJunk))
  }

  /** One half of the pair: every whitespace token is converted, and the first
      three are degrees, minutes and seconds; later tokens must still be
      numerals but do not count. A token that is no numeral is the
      `ValueError` case, fewer than three tokens the `IndexError` case. */
  function Component(half: string): (r: Result<int>)
    ensures r.Ok? <==> |Fields(half)| >= 3 && MapAll(TokenValue, Fields(half)).Some?
    ensures r.Ok? ==> r.value >= 0
  {
    var fields := Fields(half);
    match MapAll(TokenValue, fields)
    case None => Raised(ValueError)
    case Some(parts) =>
      if |parts| < 3 then Raised(IndexError)
      else
        MapAllValues(TokenValue, fields);
        assert parts[0] == TokenValue(fields[0]).value;
        assert parts[1] == TokenValue(fields[1]).value;
        assert parts[2] == TokenValue(fields[2]).value;
        Ok(Round7(Dms(parts[0], parts[1], parts[2])))
  }

  /** What `gps_time2decimal(coor)` returns or raises: the sentinel unless the
      cleaned string holds exactly one comma, otherwise the two halves
      converted, neither of them negative. */
  function Gps(coor: string): (r: Result<Coord>)
    ensures r.Ok? ==> r.value.lat >= 0 && r.value.lon >= 0
  {
    Convert(Clean(coor))
  }

  /** The conversion of an already cleaned string: `x, y = c.split(',')`,
      then each half converted in turn, the first failure escaping. */
  function Convert(c: string): (r: Result<Coord>)
    ensures Count(c, ',') != 1 ==> r == Ok(Sentinel)
    ensures Count(c, ',') == 1 ==>
              var halves := Split(c, ',');
              (r.Ok? <==> Component(halves[0]).Ok? && Component(halves[1]).Ok?) &&
              (r.Ok? ==> r.value == Coord(Component(halves[0]).value, Component(halves[1]).value)) &&
              (Component(halves[0]).Raised? ==> r == Raised(Component(halves[0]).exc)) &&
              (Component(halves[0]).Ok? && Component(halves[1]).Raised? ==> r == Raised(Component(halves[1]).exc))
    ensures r.Ok? ==> r.value.lat >= 0 && r.value.lon >= 0
  {
    var halves := Split(c, ',');
    if |halves| != 2 then Ok(Sentinel)
    else
      CollectValues(Component, halves);
      match Collect(Component, halves)
      case Raised(e) => Raised(e)
      case Ok(v) => Ok(Coord(v[0], v[1]))
  }

  /** The set of the first `j` hemisphere letters. */
  function LettersBefore(j: nat): set<char>
    requires j <= |Hemispheres|
  {
    if j == 0 then {} else LettersBefore(j - 1) + {Hemispheres[j - 1]}
  }

  lemma AllHemispheres()
    ensures LettersBefore(|Hemispheres|) == {'N', 'W', 'S', 'E'}
  {
    assert Hemispheres[0] == 'N' && Hemispheres[1] == 'W';
    assert Hemispheres[2] == 'S' && Hemispheres[3] == 'E';
  }

  /** After the last pass all four letters are deleted. */
  lemma AllDeleted(coor: string, c: string)
    requires c == Without(coor, LettersBefore(|Hemispheres|))
    ensures c == Without(coor, {'N', 'W', 'S', 'E'})
  {
    AllHemispheres();
  }

  /** Deleting the next hemisphere letter from what the first `j` deletions
      left is deleting the first `j + 1` letters. */
  lemma DeleteOneMore(coor: string, c: string, j: nat)
    requires j < |Hemispheres| && c == Without(coor, LettersBefore(j))
    ensures ReplaceAll(c, [Hemispheres[j]], "") == Without(coor, LettersBefore(j + 1))
  {
    ReplaceCharByNothing(c, Hemispheres[j]);
    WithoutTwice(coor, LettersBefore(j), {Hemispheres[j]});
  }

  /** The first loop of `gps_time2decimal`: `coor.replace(l, '')` for each
      letter `l` of `'NWSE'` in turn deletes all four letters. */
  method DeleteHemispheres(coor: string) returns (c: string)
    ensures c == Without(coor, {'N', 'W', 'S', 'E'})
  {
    c := coor;
    WithoutNone(coor, {});
    for j := 0 to |Hemispheres|
      invariant c == Without(coor, LettersBefore(j))
    {
      var l := Hemispheres[j];
      DeleteOneMore(coor, c, j);
      c := ReplaceAll(c, [l], "");
    }
    AllDeleted(coor, c);
  }

  /** `gps_time2decimal` as the source writes it: the letter deletions, the
      `deg` deletion, the two-way split, and a loop converting each half. */
  method GpsToDecimal(coor: string) returns (r: Result<Coord>)
    ensures r == Gps(coor)
  {
    var c := DeleteHemispheres(coor);
    c := ReplaceAll(c, "deg", "");
    var halves := Split(c, ',');
    if |halves| != 2 {
      return Ok(Sentinel);
    }
    var ncoors := CollectEach(Component, halves);
    match ncoors
    case Raised(e) => r := Raised(e);
    case Ok(v) => r := Ok(Coord(v[0], v[1]));
  }

  // ---------------------------------------------------------------------
  // What a component is.

  /** Whole degrees and minutes with seconds to two places, as exiftool
      prints them, never come within 1/18 of a unit of a rounding tie, so the
      tie rule and the error of the double do not decide the result. */
  lemma HundredthsStayOffTies(d: nat, m: nat, k: nat, n: int)
    ensures var y := Dms(d as real, m as real, k as real / 100.0) * 10000000.0;
            y <= n as real + 0.5 - 1.0 / 18.0 || y >= n as real + 0.5 + 1.0 / 18.0
  {
    var units := 90000000 * d + 1500000 * m + 250 * k;
    assert Dms(d as real, m as real, k as real / 100.0) * 10000000.0 == units as real / 9.0;
    assert 2 * units != 18 * n + 9;
  }

  /** Finer seconds can meet a tie: 14.0625 seconds is exactly 1/256 degree,
      which rounds to the even 0.0039062. */
  lemma SecondsOnATie()
    ensures Round7(Dms(0.0, 0.0, 14.0625)) == 39062
  {
    assert Dms(0.0, 0.0, 14.0625) == 0.00390625;
    Round7TieToEven();
  }

  /** A converted half is its first three tokens read as degrees, minutes and
      seconds, rounded to seven places. */
  lemma ComponentValue(half: string)
    requires Component(half).Ok?
    ensures |Fields(half)| >= 3
    ensures var f := Fields(half);
            TokenValue(f[0]).Some? && TokenValue(f[1]).Some? && TokenValue(f[2]).Some? &&
            Component(half).value ==
              Round7(Dms(TokenValue(f[0]).value, TokenValue(f[1]).value, TokenValue(f[2]).value))
  {
    MapAllValues(TokenValue, Fields(half));
  }

  /** Tokens after the third do not change the value, as long as they are
      numerals too. */
  lemma ExtraTokensIgnored(a: string, b: string)
    requires |Fields(a)| >= 3 && |Fields(b)| >= 3 && Fields(a)[..3] == Fields(b)[..3]
    requires MapAll(TokenValue, Fields(a)).Some? && MapAll(TokenValue, Fields(b)).Some?
    ensures Component(a) == Component(b)
  {
    ComponentValue(a);
    ComponentValue(b);
    assert Fields(a)[0] == Fields(a)[..3][0] && Fields(b)[0] == Fields(b)[..3][0];
    assert Fields(a)[1] == Fields(a)[..3][1] && Fields(b)[1] == Fields(b)[..3][1];
    assert Fields(a)[2] == Fields(a)[..3][2] && Fields(b)[2] == Fields(b)[..3][2];
  }

  /** A token that is no numeral makes the half raise `ValueError`, even when
      there are fewer than three tokens: the list is built before it is
      indexed. */
  lemma BadTokenRaisesValueError(half: string, i: nat)
    requires i < |Fields(half)| && TokenValue(Fields(half)[i]).None?
    ensures Component(half) == Raised(ValueError)
  {
    MapAllValues(TokenValue, Fields(half));
  }

  /** Fewer than three tokens, all of them numerals, is the `IndexError` case. */
  lemma ShortHalfRaisesIndexError(half: string)
    requires |Fields(half)| < 3 && MapAll(TokenValue, Fields(half)).Some?
    ensures Component(half) == Raised(IndexError)
  {
  }

  /** A leading minus sign is punctuation and is stripped with the rest, so it
      never makes a token negative. */
  lemma MinusSignIgnored(v: string)
    ensures TokenValue("-" + v) == TokenValue(v)
  {
    assert '-' == 45 as char;
    assert '-' in TokenJunk;
    assert ("-" + v)[1..] == v;
    assert StripLeft("-" + v, TokenJunk) == StripLeft(v, TokenJunk);
  }

  // ---------------------------------------------------------------------
  // The examples of the docstring, worked through.

  lemma SpaceIsWhitespace()
    ensures ' ' in Whitespace
  {
    assert IsSpaceCode(32) && ' ' == 32 as char;
  }

  /** The minute and second marks are among the characters `strip` removes. */
  lemma QuotesAreJunk()
    ensures '\'' in TokenJunk && '"' in TokenJunk
  {
    assert '\'' == 39 as char && '"' == 34 as char;
  }

  /** A digit is neither stripped nor whitespace. */
  lemma DigitIsKept(c: char)
    requires IsDigit(c)
    ensures c !in TokenJunk && c !in Whitespace
  {
  }

  /** A numeral with stripped characters behind it reads as the numeral. */
  lemma NumeralToken(n: string, tail: string)
    requires |n| > 0 && IsDigit(n[0]) && IsDigit(n[|n| - 1])
    requires forall i :: 0 <= i < |tail| ==> tail[i] in TokenJunk
    ensures TokenValue(n + tail) == FloatValue(n)
  {
    DigitIsKept(n[0]);
    DigitIsKept(n[|n| - 1]);
    StripTail(n, tail, TokenJunk);
  }

  /** `float()` of a run of digits is its value. */
  lemma WholeValue(d: string)
    requires IsDigits(d)
    ensures FloatValue(d) == Some(DigitsValue(d) as real)
  {
    assert '.' !in d;
    SplitJoin([d], '.');
  }

  /** `float()` of digits, a point and digits. */
  lemma FractionValue(ip: string, fp: string)
    requires IsDigits(ip) && IsDigits(fp)
    ensures FloatValue(ip + "." + fp) == Some(Decimal(DigitsValue(ip), DigitsValue(fp), |fp|))
  {
    assert '.' !in ip && '.' !in fp;
    assert Join([ip, fp], '.') == ip + "." + fp;
    SplitJoin([ip, fp], '.');
  }

  /** A half of exactly three tokens with these values. */
  lemma ThreeTokens(half: string, t0: string, t1: string, t2: string, d: real, m: real, s: real)
    requires Fields(half) == [t0, t1, t2]
    requires TokenValue(t0) == Some(d) && TokenValue(t1) == Some(m) && TokenValue(t2) == Some(s)
    ensures Component(half) == Ok(Round7(Dms(d, m, s)))
  {
    var fields := Fields(half);
    MapAllValues(TokenValue, fields);
    assert forall i :: 0 <= i < |fields| ==> TokenValue(fields[i]).Some? by {
      assert fields[0] == t0 && fields[1] == t1 && fields[2] == t2;
    }
    assert MapAll(TokenValue, fields).Some?;
    assert Component(half).Ok?;
    ComponentValue(half);
  }

  /** A run of digits with stripped characters behind it. */
  lemma WholeToken(n: string, tail: string)
    requires IsDigits(n) && forall i :: 0 <= i < |tail| ==> tail[i] in TokenJunk
    ensures TokenValue(n + tail) == Some(DigitsValue(n) as real)
  {
    NumeralToken(n, tail);
    WholeValue(n);
  }

  /** Digits, a point and digits, with stripped characters behind them. */
  lemma FractionToken(ip: string, fp: string, tail: string)
    requires IsDigits(ip) && IsDigits(fp) && forall i :: 0 <= i < |tail| ==> tail[i] in TokenJunk
    ensures TokenValue(ip + "." + fp + tail) == Some(Decimal(DigitsValue(ip), DigitsValue(fp), |fp|))
  {
    var n := ip + "." + fp;
    assert n[0] == ip[0] && n[|n| - 1] == fp[|fp| - 1];
    NumeralToken(n, tail);
    FractionValue(ip, fp);
  }

  // The first example: `25 deg 5' 16.26" N, 34 deg 46' 29.21" E`.

  lemma Example1Delete()
    ensures Without("25 deg 5' 16.26\" N, 34 deg 46' 29.21\" E", {'N', 'W', 'S', 'E'}) ==
            "25 deg 5' 16.26\" " + ", 34 deg 46' 29.21\" "
  {
    var a, b := "25 deg 5' 16.26\" ", ", 34 deg 46' 29.21\" ";
    assert "25 deg 5' 16.26\" N, 34 deg 46' 29.21\" E" == a + ['N'] + b + ['E'];
    DeleteTwo(a, 'N', b, 'E', {'N', 'W', 'S', 'E'});
  }

  lemma Example1LatDegree()
    ensures "25 deg 5' 16.26\" " == "25 " + "deg" + " 5' 16.26\" "
  {
  }

  lemma Example1LonDegree()
    ensures ", 34 deg 46' 29.21\" " == ", 34 " + "deg" + " 46' 29.21\" "
  {
  }

  lemma Example1Middle()
    ensures " 5' 16.26\" " + ", 34 " == " 5' 16.26\" , 34 "
  {
  }

  lemma Example1NoD()
    ensures 'd' !in "25 " && 'd' !in " 5' 16.26\" , 34 " && 'd' !in " 46' 29.21\" "
  {
  }

  lemma Example1ReplacePieces()
    ensures "25 deg 5' 16.26\" " + ", 34 deg 46' 29.21\" " == "25 " + "deg" + " 5' 16.26\" , 34 " + "deg" + " 46' 29.21\" "
    ensures 'd' !in "25 " && 'd' !in " 5' 16.26\" , 34 " && 'd' !in " 46' 29.21\" "
  {
    Example1LatDegree();
    Example1LonDegree();
    Example1Middle();
    Regroup("25 ", "deg", " 5' 16.26\" ", ", 34 ", " 46' 29.21\" ");
    Example1NoD();
  }

  lemma Example1Replaced()
    ensures "25 " + "" + " 5' 16.26\" , 34 " + "" + " 46' 29.21\" " == "25  5' 16.26\" , 34  46' 29.21\" "
  {
  }

  lemma Example1Replace()
    ensures ReplaceAll("25 deg 5' 16.26\" " + ", 34 deg 46' 29.21\" ", "deg", "") ==
            "25  5' 16.26\" , 34  46' 29.21\" "
  {
    Example1ReplacePieces();
    ReplaceTwo("25 ", " 5' 16.26\" , 34 ", " 46' 29.21\" ", "deg", "");
    Example1Replaced();
  }

  /** Deleting the hemisphere letters and `deg` leaves the numbers and marks. */
  lemma Example1Clean()
    ensures Clean("25 deg 5' 16.26\" N, 34 deg 46' 29.21\" E") == "25  5' 16.26\" , 34  46' 29.21\" "
  {
    Example1Delete();
    Example1Replace();
  }

  /** The one comma splits the text into latitude and longitude. */
  lemma Example1Split()
    ensures var c := "25  5' 16.26\" , 34  46' 29.21\" ";
            Split(c, ',') == ["25  5' 16.26\" ", " 34  46' 29.21\" "] && Count(c, ',') == 1
  {
    var h0, h1 := "25  5' 16.26\" ", " 34  46' 29.21\" ";
    assert "25  5' 16.26\" , 34  46' 29.21\" " == h0 + [','] + h1;
    SplitTwo(h0, h1, ',');
  }

  /** `split()` of each half yields degrees, minutes and seconds. */
  lemma Example1LatFields()
    ensures Fields("25  5' 16.26\" ") == ["25", "5'", "16.26\""]
  {
    assert "25  5' 16.26\" " == "" + "25" + "  " + "5'" + " " + "16.26\"" + " ";
    assert AllWhitespace("  ") && AllWhitespace(" ") by {
      SpaceIsWhitespace();
    }
    ThreeFields("", "25", "  ", "5'", " ", "16.26\"", " ");
  }

  lemma Example1LonFields()
    ensures Fields(" 34  46' 29.21\" ") == ["34", "46'", "29.21\""]
  {
    assert " 34  46' 29.21\" " == " " + "34" + "  " + "46'" + " " + "29.21\"" + " ";
    assert AllWhitespace("  ") && AllWhitespace(" ") by {
      SpaceIsWhitespace();
    }
    ThreeFields(" ", "34", "  ", "46'", " ", "29.21\"", " ");
  }

  // Each token is first read in pieces, then named by its literal text:
  // reading a literal token in one step is far more costly to prove.

  lemma Example1Token5Pieces()
    ensures TokenValue("5" + "'") == Some(5.0)
  {
    assert IsDigits("5") && DigitsValue("5") == 5 by {
      assert "5"[..0] == "";
    }
    assert forall i :: 0 <= i < |"'"| ==> "'"[i] in TokenJunk by {
      QuotesAreJunk();
    }
    WholeToken("5", "'");
  }

  lemma Example1Token5()
    ensures TokenValue("5'") == Some(5.0)
  {
    assert "5'" == "5" + "'";
    Example1Token5Pieces();
  }

  lemma Example1Token46Pieces()
    ensures TokenValue("46" + "'") == Some(46.0)
  {
    Example1Digits();
    QuotesAreJunk();
    WholeToken("46", "'");
  }

  lemma Example1Token46()
    ensures TokenValue("46'") == Some(46.0)
  {
    assert "46'" == "46" + "'";
    Example1Token46Pieces();
  }

  lemma Example1SecondsDigits()
    ensures IsDigits("16") && IsDigits("26") && DigitsValue("16") == 16 && DigitsValue("26") == 26
    ensures IsDigits("29") && IsDigits("21") && DigitsValue("29") == 29 && DigitsValue("21") == 21
  {
    assert "16"[..1] == "1" && "26"[..1] == "2" && "29"[..1] == "2" && "21"[..1] == "2";
  }

  lemma Example1Digits()
    ensures IsDigits("25") && IsDigits("34") && IsDigits("46")
    ensures DigitsValue("25") == 25 && DigitsValue("34") == 34 && DigitsValue("46") == 46
  {
    assert "25"[..1] == "2" && "34"[..1] == "3" && "46"[..1] == "4";
  }

  lemma Example1Token1626Pieces()
    ensures TokenValue("16" + "." + "26" + "\"") == Some(Decimal(16, 26, 2))
  {
    Example1SecondsDigits();
    assert forall i :: 0 <= i < |"\""| ==> "\""[i] in TokenJunk by {
      QuotesAreJunk();
    }
    FractionToken("16", "26", "\"");
  }

  lemma Example1Token2921Pieces()
    ensures TokenValue("29" + "." + "21" + "\"") == Some(Decimal(29, 21, 2))
  {
    Example1SecondsDigits();
    assert forall i :: 0 <= i < |"\""| ==> "\""[i] in TokenJunk by {
      QuotesAreJunk();
    }
    FractionToken("29", "21", "\"");
  }

  lemma Example1Fractions()
    ensures Decimal(16, 26, 2) == 16.26 && Decimal(29, 21, 2) == 29.21
  {
    assert Pow10(2) == 100;
  }

  /** The second tokens read as their decimal values once the mark is stripped. */
  lemma Example1Seconds()
    ensures TokenValue("16.26\"") == Some(16.26) && TokenValue("29.21\"") == Some(29.21)
  {
    assert "16.26\"" == "16" + "." + "26" + "\"";
    assert "29.21\"" == "29" + "." + "21" + "\"";
    Example1Token1626Pieces();
    Example1Token2921Pieces();
    Example1Fractions();
  }

  /** The degree tokens read as whole numbers. */
  lemma Example1Whole()
    ensures TokenValue("25") == Some(25.0) && TokenValue("34") == Some(34.0)
  {
    Example1Digits();
    WholeToken("25", "");
    WholeToken("34", "");
    assert "25" + "" == "25" && "34" + "" == "34";
  }

  /** Rounding each sum to seven decimals. */
  lemma Example1Rounding()
    ensures Round7(Dms(25.0, 5.0, 16.26)) == 250878500
    ensures Round7(Dms(34.0, 46.0, 29.21)) == 347747806
  {
  }

  /** Each half converts to its rounded decimal degrees. */
  lemma Example1Lat()
    ensures Component("25  5' 16.26\" ") == Ok(250878500)
  {
    Example1LatFields();
    Example1Whole();
    Example1Token5();
    Example1Seconds();
    ThreeTokens("25  5' 16.26\" ", "25", "5'", "16.26\"", 25.0, 5.0, 16.26);
    Example1Rounding();
  }

  lemma Example1Lon()
    ensures Component(" 34  46' 29.21\" ") == Ok(347747806)
  {
    Example1LonFields();
    Example1Whole();
    Example1Token46();
    Example1Seconds();
    ThreeTokens(" 34  46' 29.21\" ", "34", "46'", "29.21\"", 34.0, 46.0, 29.21);
    Example1Rounding();
  }

  /** The docstring's exiftool example converts to (25.0878500, 34.7747806). */
  lemma GpsDocstringExample()
    ensures Gps("25 deg 5' 16.26\" N, 34 deg 46' 29.21\" E") == Ok(Coord(250878500, 347747806))
  {
    Example1Clean();
    Example1Split();
    Example1Lat();
    Example1Lon();
  }

  // The plain example: `44 26 46, 79 58 56`.

  /** Digits, spaces and commas are left alone by the deletion of the
      hemisphere letters. */
  lemma NoHemisphereLetters(s: string)
    requires forall i :: 0 <= i < |s| ==> IsDigit(s[i]) || s[i] == ' ' || s[i] == ','
    ensures Without(s, {'N', 'W', 'S', 'E'}) == s
  {
    WithoutNone(s, {'N', 'W', 'S', 'E'});
  }

  /** The latitude half holds no hemisphere letter. */
  lemma Example2LatNoLetters()
    ensures Without("44 26 46", {'N', 'W', 'S', 'E'}) == "44 26 46"
  {
    NoHemisphereLetters("44 26 46");
  }

  /** Nor does the comma and the longitude half. */
  lemma Example2LonNoLetters()
    ensures Without(", 79 58 56", {'N', 'W', 'S', 'E'}) == ", 79 58 56"
  {
    NoHemisphereLetters(", 79 58 56");
  }

  /** With no letter and no `deg`, cleaning changes nothing. */
  lemma Example2Letters()
    ensures Without("44 26 46, 79 58 56", {'N', 'W', 'S', 'E'}) == "44 26 46, 79 58 56"
  {
    assert "44 26 46, 79 58 56" == "44 26 46" + ", 79 58 56";
    Example2LatNoLetters();
    Example2LonNoLetters();
    KeepBoth("44 26 46", ", 79 58 56", {'N', 'W', 'S', 'E'});
  }

  lemma Example2Degrees()
    ensures ReplaceAll("44 26 46, 79 58 56", "deg", "") == "44 26 46, 79 58 56"
  {
    assert 'd' !in "44 26 46, 79 58 56";
    ReplaceNone("44 26 46, 79 58 56", "deg", "");
  }

  lemma Example2Clean()
    ensures Clean("44 26 46, 79 58 56") == "44 26 46, 79 58 56"
  {
    Example2Letters();
    Example2Degrees();
  }

  /** The one comma splits the text into latitude and longitude. */
  lemma Example2Split()
    ensures Split("44 26 46, 79 58 56", ',') == ["44 26 46", " 79 58 56"]
    ensures Count("44 26 46, 79 58 56", ',') == 1
  {
    assert "44 26 46, 79 58 56" == "44 26 46" + [','] + " 79 58 56";
    SplitTwo("44 26 46", " 79 58 56", ',');
  }

  /** `split()` of each half yields degrees, minutes and seconds. */
  lemma Example2LatFields()
    ensures Fields("44 26 46") == ["44", "26", "46"]
  {
    assert "44 26 46" == "" + "44" + " " + "26" + " " + "46" + "";
    assert AllWhitespace(" ") by {
      SpaceIsWhitespace();
    }
    ThreeFields("", "44", " ", "26", " ", "46", "");
  }

  lemma Example2LonFields()
    ensures Fields(" 79 58 56") == ["79", "58", "56"]
  {
    assert " 79 58 56" == " " + "79" + " " + "58" + " " + "56" + "";
    assert AllWhitespace(" ") by {
      SpaceIsWhitespace();
    }
    ThreeFields(" ", "79", " ", "58", " ", "56", "");
  }

  /** Every token is a plain whole number. */
  lemma Example2Digits()
    ensures IsDigits("44") && IsDigits("26") && IsDigits("46")
    ensures IsDigits("79") && IsDigits("58") && IsDigits("56")
    ensures DigitsValue("44") == 44 && DigitsValue("26") == 26 && DigitsValue("46") == 46
    ensures DigitsValue("79") == 79 && DigitsValue("58") == 58 && DigitsValue("56") == 56
  {
    assert "44"[..1] == "4" && "26"[..1] == "2" && "46"[..1] == "4";
    assert "79"[..1] == "7" && "58"[..1] == "5" && "56"[..1] == "5";
  }

  lemma Example2LatTokens()
    ensures TokenValue("44") == Some(44.0) && TokenValue("26") == Some(26.0) && TokenValue("46") == Some(46.0)
  {
    Example2Digits();
    WholeToken("44", "");
    WholeToken("26", "");
    WholeToken("46", "");
    assert "44" + "" == "44" && "26" + "" == "26" && "46" + "" == "46";
  }

  lemma Example2LonTokens()
    ensures TokenValue("79") == Some(79.0) && TokenValue("58") == Some(58.0) && TokenValue("56") == Some(56.0)
  {
    Example2Digits();
    WholeToken("79", "");
    WholeToken("58", "");
    WholeToken("56", "");
    assert "79" + "" == "79" && "58" + "" == "58" && "56" + "" == "56";
  }

  /** Rounding each sum to seven decimals. */
  lemma Example2Rounding()
    ensures Round7(Dms(44.0, 26.0, 46.0)) == 444461111
    ensures Round7(Dms(79.0, 58.0, 56.0)) == 799822222
  {
  }

  /** Each half converts to its rounded decimal degrees. */
  lemma Example2Halves()
    ensures Component("44 26 46") == Ok(444461111) && Component(" 79 58 56") == Ok(799822222)
  {
    Example2LatFields();
    Example2LonFields();
    Example2LatTokens();
    Example2LonTokens();
    ThreeTokens("44 26 46", "44", "26", "46", 44.0, 26.0, 46.0);
    ThreeTokens(" 79 58 56", "79", "58", "56", 79.0, 58.0, 56.0);
    Example2Rounding();
  }

  /** The docstring's plain example converts to (44.4461111, 79.9822222). */
  lemma GpsPlainExample()
    ensures Gps("44 26 46, 79 58 56") == Ok(Coord(444461111, 799822222))
  {
    Example2Clean();
    Example2Split();
    Example2Halves();
  }
}
