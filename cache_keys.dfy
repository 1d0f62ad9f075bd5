/** The names of the map and place cache files. A picture's key is its MD5
    digest, an underscore and its two coordinates printed with `%.7f` and
    joined by a hyphen; its map is `maps/<key>.jpg` and its place text
    `places/<key>.txt`. */
module CacheKeys {
  import opened Text
  import opened Numerals
  import opened Coordinates

  /** A lowercase hexadecimal digit, as `md5sum` prints them. */
  predicate IsHexDigit(c: char) {
    IsDigit(c) || 'a' as int <= c as int <= 'f' as int
  }

  /** An MD5 digest as `md5sum` prints it: 32 hexadecimal digits. */
  type Digest = h: string | |h| == 32 && forall i :: 0 <= i < |h| ==> IsHexDigit(h[i])
    witness seq(32, i => '0')

  /** `'%.7f-%.7f' % location` */
  function CoordText(c: Coord): string {
    Fmt7(c.lat) + "-" + Fmt7(c.lon)
  }

  /** `'%s_%.7f-%.7f' % (map_name, *location)` */
  function Key(h: Digest, c: Coord): string {
    h + "_" + CoordText(c)
  }

  /** The map file of a key, as it appears in the listing of `maps/`. */
  function MapFile(key: string): string {
    key + ".jpg"
  }

  /** The place file of a key, as it appears in `places/`. */
  function PlaceFile(key: string): string {
    key + ".txt"
  }

  /** `'%.7f-%.7f.jpg' % location`: the ending a listed map name is tested
      against when looking for a map of the same place. */
  function CoordSuffix(c: Coord): string {
    CoordText(c) + ".jpg"
  }

  /** The stem `loc.replace('.jpg', '')` of a listed map name. */
  function Stem(name: string): string {
    ReplaceAll(name, ".jpg", "")
  }

  /** `map_name + loc[32:]`: the stem the copied files get, the new digest
      in place of the first 32 characters of the old stem. */
  function CopyTarget(h: Digest, name: string): string {
    h + Drop(Stem(name), 32)
  }

  /** `key.split('_')[-1].replace('-', ', ')`: the location text shown for a
      selected picture. */
  function LocationText(key: string): string {
    var pieces := Split(key, '_');
    ReplaceAll(pieces[|pieces| - 1], "-", ", ")
  }

  // ---------------------------------------------------------------------
  // Character facts.

  lemma DigestChars(h: Digest)
    ensures '_' !in h && '-' !in h && 'j' !in h
  {
    assert forall i :: 0 <= i < |h| ==> IsHexDigit(h[i]);
  }

  lemma Fmt7Chars(n: int)
    requires n >= 0
    ensures '_' !in Fmt7(n) && '-' !in Fmt7(n) && 'j' !in Fmt7(n)
  {
    assert forall i :: 0 <= i < |Fmt7(n)| ==> IsDigit(Fmt7(n)[i]) || Fmt7(n)[i] == '.';
  }

  lemma {:induction false} NotContainsChar(s: string, c: char)
    requires c !in s
    ensures !Contains(s, [c])
    decreases |s|
  {
    if |s| > 0 {
      assert s[..1] == [s[0]];
      NotContainsChar(s[1..], c);
    }
  }

  /** Deleting `.jpg` from a name that ends with it and has no other `j`
      leaves exactly the rest. */
  lemma {:induction false} StemOfJpg(s: string)
    requires 'j' !in s
    ensures Stem(s + ".jpg") == s
    decreases |s|
  {
    if |s| == 0 {
      assert s + ".jpg" == ".jpg";
      assert ReplaceAll("", ".jpg", "") == "";
    } else {
      var t := s + ".jpg";
      assert t[1] != 'j' by {
        if |s| > 1 {
          assert t[1] == s[1];
        }
      }
      assert t[..4] != ".jpg";
      assert t[1..] == s[1..] + ".jpg";
      StemOfJpg(s[1..]);
      assert s == [s[0]] + s[1..];
    }
  }

  /** Distinct stems have distinct map files and distinct place files. */
  lemma FileNamesInjective(a: string, b: string)
    requires a != b
    ensures MapFile(a) != MapFile(b) && PlaceFile(a) != PlaceFile(b)
  {
    assert MapFile(a)[..|a|] == a && MapFile(b)[..|b|] == b;
    assert PlaceFile(a)[..|a|] == a && PlaceFile(b)[..|b|] == b;
  }

  // ---------------------------------------------------------------------
  // What the key format promises.

  /** The key of a picture determines the picture's digest and location:
      distinct (digest, location) pairs never share a cache file. */
  lemma KeyInjective(h1: Digest, c1: Coord, h2: Digest, c2: Coord)
    requires c1.lat >= 0 && c1.lon >= 0 && c2.lat >= 0 && c2.lon >= 0
    requires Key(h1, c1) == Key(h2, c2)
    ensures h1 == h2 && c1 == c2
  {
    DigestChars(h1);
    DigestChars(h2);
    Fmt7Chars(c1.lat);
    Fmt7Chars(c1.lon);
    Fmt7Chars(c2.lat);
    Fmt7Chars(c2.lon);
    assert Key(h1, c1)[..32] == h1 && Key(h2, c2)[..32] == h2;
    var t1, t2 := CoordText(c1), CoordText(c2);
    assert Key(h1, c1)[33..] == t1 && Key(h2, c2)[33..] == t2;
    assert t1 == Join([Fmt7(c1.lat), Fmt7(c1.lon)], '-');
    assert t2 == Join([Fmt7(c2.lat), Fmt7(c2.lon)], '-');
    SplitJoin([Fmt7(c1.lat), Fmt7(c1.lon)], '-');
    SplitJoin([Fmt7(c2.lat), Fmt7(c2.lon)], '-');
    Fmt7Injective(c1.lat, c2.lat);
    Fmt7Injective(c1.lon, c2.lon);
  }

  /** The searched ending determines the location: two locations never
      look for the same map name ending. */
  lemma CoordSuffixInjective(c1: Coord, c2: Coord)
    requires c1.lat >= 0 && c1.lon >= 0 && c2.lat >= 0 && c2.lon >= 0
    requires CoordSuffix(c1) == CoordSuffix(c2)
    ensures c1 == c2
  {
    var t1, t2 := CoordText(c1), CoordText(c2);
    assert t1 == CoordSuffix(c1)[..|t1|] && t2 == CoordSuffix(c2)[..|t2|];
    Fmt7Chars(c1.lat);
    Fmt7Chars(c1.lon);
    Fmt7Chars(c2.lat);
    Fmt7Chars(c2.lon);
    assert t1 == Join([Fmt7(c1.lat), Fmt7(c1.lon)], '-');
    assert t2 == Join([Fmt7(c2.lat), Fmt7(c2.lon)], '-');
    SplitJoin([Fmt7(c1.lat), Fmt7(c1.lon)], '-');
    SplitJoin([Fmt7(c2.lat), Fmt7(c2.lon)], '-');
    Fmt7Injective(c1.lat, c2.lat);
    Fmt7Injective(c1.lon, c2.lon);
  }

  /** A picture's own map file ends with its coordinate suffix. */
  lemma MapFileEndsWithSuffix(h: Digest, c: Coord)
    ensures EndsWith(MapFile(Key(h, c)), CoordSuffix(c))
  {
    assert MapFile(Key(h, c)) == h + "_" + CoordSuffix(c);
  }

  /** The location shown for a key is its two coordinates joined by `, `. */
  lemma LocationTextOfKey(h: Digest, c: Coord)
    requires c.lat >= 0 && c.lon >= 0
    ensures LocationText(Key(h, c)) == Fmt7(c.lat) + ", " + Fmt7(c.lon)
  {
    var lat, lon := Fmt7(c.lat), Fmt7(c.lon);
    DigestChars(h);
    Fmt7Chars(c.lat);
    Fmt7Chars(c.lon);
    assert '_' !in CoordText(c);
    assert Key(h, c) == Join([h, CoordText(c)], '_');
    SplitJoin([h, CoordText(c)], '_');
    assert CoordText(c) == lat + ("-" + lon);
    NotContainsChar(lat, '-');
    NotContainsChar(lon, '-');
    ReplaceCharAppend(lat, "-" + lon, '-', ", ");
    assert ("-" + lon)[..1] == "-" && ("-" + lon)[1..] == lon;
  }

  /** Copying from another picture's map of the same location gives the
      copies exactly the new picture's key. */
  lemma CopyTargetOfKey(h: Digest, other: Digest, c: Coord)
    requires c.lat >= 0 && c.lon >= 0
    ensures CopyTarget(h, MapFile(Key(other, c))) == Key(h, c)
  {
    DigestChars(other);
    Fmt7Chars(c.lat);
    Fmt7Chars(c.lon);
    assert 'j' !in Key(other, c);
    StemOfJpg(Key(other, c));
    assert Drop(Key(other, c), 32) == "_" + CoordText(c);
  }

  /** The ending test is not a test of equal coordinates: the map of a
      picture at latitude 11 ends with the suffix searched for latitude 1,
      and the copies then carry latitude 11 rather than the new picture's
      key. */
  lemma SuffixMatchesOtherLatitude(h: Digest, other: Digest)
    ensures EndsWith(MapFile(Key(other, Coord(110000000, 20000000))), CoordSuffix(Coord(10000000, 20000000)))
    ensures CopyTarget(h, MapFile(Key(other, Coord(110000000, 20000000)))) != Key(h, Coord(10000000, 20000000))
  {
    var near, far := Coord(10000000, 20000000), Coord(110000000, 20000000);
    assert Fmt7(110000000) == "1" + Fmt7(10000000) by {
      assert NatToDec(11) == NatToDec(1) + [DigitChar(1)];
    }
    assert CoordText(far) == "1" + CoordText(near);
    assert MapFile(Key(other, far)) == other + "_1" + CoordSuffix(near);
    CopyTargetOfKey(h, other, far);
    KeyInjectiveNeq(h, far, near);
  }

  lemma KeyInjectiveNeq(h: Digest, c1: Coord, c2: Coord)
    requires c1.lat >= 0 && c1.lon >= 0 && c2.lat >= 0 && c2.lon >= 0 && c1 != c2
    ensures Key(h, c1) != Key(h, c2)
  {
    if Key(h, c1) == Key(h, c2) {
      KeyInjective(h, c1, h, c2);
    }
  }
}
