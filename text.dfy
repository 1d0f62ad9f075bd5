/** The Python string operations the scanner relies on, over `seq<char>`. */
module Text {

  /** Characters for which Python's `str.isspace()` holds: what `split()` and
      `strip()` with no argument treat as whitespace. */
  const Whitespace: set<char> := set i | 9 <= i <= 12288 && IsSpaceCode(i) :: i as char

  /** The code points of `Whitespace`: tab to carriage return, the four
      information separators, space, next line, no-break space, the Ogham
      space mark, the typographic spaces up to hair space, line and paragraph
      separators, narrow no-break, medium mathematical and ideographic space. */
  predicate IsSpaceCode(i: int) {
    9 <= i <= 13 || 28 <= i <= 32 || i == 0x85 || i == 0xA0 || i == 0x1680 ||
    0x2000 <= i <= 0x200A || i == 0x2028 || i == 0x2029 || i == 0x202F || i == 0x205F || i == 0x3000
  }

  /** Python's `string.punctuation`: the printable ASCII characters that are
      neither letters nor digits, `!"#$%&'()*+,-./:;<=>?@[\]^_`{|}~`. */
  const Punctuation: set<char> :=
    set i | 33 <= i <= 126 && !(48 <= i <= 57 || 65 <= i <= 90 || 97 <= i <= 122) :: i as char

  /** Python's `string.ascii_letters`: `A` to `Z` and `a` to `z`. */
  const AsciiLetters: set<char> := set i | 65 <= i <= 122 && !(91 <= i <= 96) :: i as char

  /** `s.startswith(p)` */
  predicate StartsWith(s: string, p: string) {
    |p| <= |s| && s[..|p|] == p
  }

  /** `s.endswith(p)` */
  predicate EndsWith(s: string, p: string) {
    |p| <= |s| && s[|s| - |p|..] == p
  }

  /** Number of occurrences of `c` in `s`. */
  function Count(s: string, c: char): nat {
    if |s| == 0 then 0 else (if s[0] == c then 1 else 0) + Count(s[1..], c)
  }

  /** `s.split(sep)` for a one-character separator: the pieces between the
      separators, always one more than there are separators. */
  function Split(s: string, sep: char): (r: seq<string>)
    ensures |r| == Count(s, sep) + 1
    ensures forall i :: 0 <= i < |r| ==> sep !in r[i]
    decreases |s|
  {
    if |s| == 0 then [""]
    else
      var rest := Split(s[1..], sep);
      if s[0] == sep then [""] + rest
      else [[s[0]] + rest[0]] + rest[1..]
  }

  /** `sep.join(parts)` */
  function Join(parts: seq<string>, sep: char): string {
    if |parts| == 0 then ""
    else if |parts| == 1 then parts[0]
    else parts[0] + [sep] + Join(parts[1..], sep)
  }

  /** `s.lstrip(chars)` */
  function StripLeft(s: string, chars: set<char>): (r: string)
    ensures |r| <= |s| && r == s[|s| - |r|..]
    ensures forall i :: 0 <= i < |s| - |r| ==> s[i] in chars
    ensures |r| > 0 ==> r[0] !in chars
  {
    if |s| > 0 && s[0] in chars then
      var r := StripLeft(s[1..], chars);
      assert forall i :: 1 <= i < |s| - |r| ==> s[i] == s[1..][i - 1];
      r
    else s
  }

  /** `s.rstrip(chars)` */
  function StripRight(s: string, chars: set<char>): (r: string)
    ensures |r| <= |s| && r == s[..|r|]
    ensures forall i :: |r| <= i < |s| ==> s[i] in chars
    ensures |r| > 0 ==> r[|r| - 1] !in chars
  {
    if |s| > 0 && s[|s| - 1] in chars then
      var r := StripRight(s[..|s| - 1], chars);
      assert forall i :: |r| <= i < |s| - 1 ==> s[i] == s[..|s| - 1][i];
      r
    else s
  }

  /** `s.strip(chars)`: the middle slice of `s` left once the characters of
      `chars` are removed from both ends. */
  function Strip(s: string, chars: set<char>): (r: string)
    ensures Contains(s, r)
    ensures |r| > 0 ==> r[0] !in chars && r[|r| - 1] !in chars
  {
    var l := StripLeft(s, chars);
    var r := StripRight(l, chars);
    var a := |s| - |l|;
    assert r == s[a..a + |r|];
    ContainsSlice(s, a, a + |r|);
    r
  }

  /** `s` with every character of `chars` deleted. */
  function Without(s: string, chars: set<char>): (r: string)
    ensures |r| <= |s|
    ensures forall i :: 0 <= i < |r| ==> r[i] !in chars && r[i] in s
  {
    if |s| == 0 then ""
    else if s[0] in chars then Without(s[1..], chars)
    else [s[0]] + Without(s[1..], chars)
  }

  /** The longest prefix of `s` holding no whitespace. */
  function Word(s: string): (w: string)
    ensures |w| <= |s| && w == s[..|w|]
    ensures forall i :: 0 <= i < |w| ==> w[i] !in Whitespace
    ensures |w| < |s| ==> s[|w|] in Whitespace
  {
    if |s| == 0 || s[0] in Whitespace then "" else [s[0]] + Word(s[1..])
  }

  /** `s.split()` with no separator: the maximal runs of non-whitespace. */
  function Fields(s: string): (r: seq<string>)
    ensures forall i :: 0 <= i < |r| ==> |r[i]| > 0
    ensures forall i, j :: 0 <= i < |r| && 0 <= j < |r[i]| ==> r[i][j] !in Whitespace
    decreases |s|
  {
    if |s| == 0 then []
    else if s[0] in Whitespace then Fields(s[1..])
    else
      var w := Word(s);
      [w] + Fields(s[|w|..])
  }

  /** `pat` occurs somewhere in `s`. */
  predicate Contains(s: string, pat: string)
    decreases |s|
  {
    StartsWith(s, pat) || (|s| > 0 && Contains(s[1..], pat))
  }

  /** Every slice of a string occurs in it. */
  lemma {:induction false} ContainsSlice(s: string, a: nat, b: nat)
    requires a <= b <= |s|
    ensures Contains(s, s[a..b])
    decreases a
  {
    if a > 0 {
      ContainsSlice(s[1..], a - 1, b - 1);
      assert s[1..][a - 1..b - 1] == s[a..b];
    }
  }

  /** `s.replace(pat, rep)`: left to right, non-overlapping, in one pass. */
  function ReplaceAll(s: string, pat: string, rep: string): (r: string)
    requires |pat| > 0
    ensures !Contains(s, pat) ==> r == s
    decreases |s|
  {
    if |s| < |pat| then s
    else if s[..|pat|] == pat then rep + ReplaceAll(s[|pat|..], pat, rep)
    else [s[0]] + ReplaceAll(s[1..], pat, rep)
  }

  /** `s.partition(sep)[2]`: what follows the first occurrence of `sep`, or
      the empty string when `sep` does not occur. */
  function AfterFirst(s: string, sep: string): (r: string)
    requires |sep| > 0
    ensures |r| <= |s| && r == s[|s| - |r|..]
    ensures StartsWith(s, sep) ==> r == s[|sep|..]
  {
    if |s| < |sep| then ""
    else if s[..|sep|] == sep then s[|sep|..]
    else AfterFirst(s[1..], sep)
  }

  /** The slice `s[n:]`, empty when `n` is past the end. */
  function Drop(s: string, n: nat): string {
    if n <= |s| then s[n..] else ""
  }

  // ---------------------------------------------------------------------
  // Split and Join are inverse to each other.

  lemma {:induction false} JoinConsFirst(c: char, p: string, ps: seq<string>, sep: char)
    ensures Join([[c] + p] + ps, sep) == [c] + Join([p] + ps, sep)
  {
    if |ps| > 0 {
      assert ([[c] + p] + ps)[1..] == ps;
      assert ([p] + ps)[1..] == ps;
    }
  }

  /** Joining the pieces of a split gives back the string. */
  lemma {:induction false} JoinSplit(s: string, sep: char)
    ensures Join(Split(s, sep), sep) == s
    decreases |s|
  {
    if |s| > 0 {
      var rest := Split(s[1..], sep);
      JoinSplit(s[1..], sep);
      if s[0] == sep {
        assert ([""] + rest)[1..] == rest;
        assert s == [s[0]] + s[1..];
      } else {
        JoinConsFirst(s[0], rest[0], rest[1..], sep);
        assert [rest[0]] + rest[1..] == rest;
        assert s == [s[0]] + s[1..];
      }
    }
  }

  /** A separator at the front splits off an empty first piece. */
  lemma {:induction false} SplitSeparatorFirst(t: string, sep: char)
    ensures Split([sep] + t, sep) == [""] + Split(t, sep)
  {
    assert ([sep] + t)[1..] == t;
  }

  /** Splitting `p + t` where `p` holds no separator glues `p` to the front of
      the first piece of `t`. */
  lemma {:induction false} SplitPlainPrefix(p: string, t: string, sep: char)
    requires sep !in p
    ensures Split(p + t, sep) == [p + Split(t, sep)[0]] + Split(t, sep)[1..]
    decreases |p|
  {
    if |p| > 0 {
      var st := Split(t, sep);
      var rest := Split(p[1..] + t, sep);
      SplitPlainPrefix(p[1..], t, sep);
      assert (p + t)[1..] == p[1..] + t;
      assert (p + t)[0] == p[0] && p[0] != sep;
      assert Split(p + t, sep) == [[p[0]] + rest[0]] + rest[1..];
      assert rest[0] == p[1..] + st[0] && rest[1..] == st[1..];
      assert [p[0]] + (p[1..] + st[0]) == p + st[0];
    } else {
      var st := Split(t, sep);
      assert p + t == t && p + st[0] == st[0];
      assert [st[0]] + st[1..] == st;
    }
  }

  /** Splitting a join of separator-free pieces gives back the pieces. */
  lemma {:induction false} SplitJoin(parts: seq<string>, sep: char)
    requires |parts| > 0
    requires forall i :: 0 <= i < |parts| ==> sep !in parts[i]
    ensures Split(Join(parts, sep), sep) == parts
    decreases |parts|
  {
    if |parts| == 1 {
      SplitPlainPrefix(parts[0], "", sep);
      assert parts[0] + "" == parts[0];
    } else {
      var tail := Join(parts[1..], sep);
      SplitJoin(parts[1..], sep);
      SplitSeparatorFirst(tail, sep);
      SplitPlainPrefix(parts[0], [sep] + tail, sep);
      assert parts[0] + [sep] + tail == parts[0] + ([sep] + tail);
      assert parts[0] + "" == parts[0];
      assert [parts[0]] + parts[1..] == parts;
    }
  }

  /** A join of separator-free pieces holds one separator fewer than pieces. */
  lemma JoinCount(parts: seq<string>, sep: char)
    requires |parts| > 0
    requires forall i :: 0 <= i < |parts| ==> sep !in parts[i]
    ensures Count(Join(parts, sep), sep) == |parts| - 1
  {
    SplitJoin(parts, sep);
  }

  /** Joining the first pieces of a list gives a prefix of joining them all. */
  lemma {:induction false} JoinTakePrefix(parts: seq<string>, k: nat, sep: char)
    requires 0 < k <= |parts|
    ensures StartsWith(Join(parts, sep), Join(parts[..k], sep))
    decreases k
  {
    if k > 1 {
      JoinTakePrefix(parts[1..], k - 1, sep);
      assert parts[..k][1..] == parts[1..][..k - 1];
    }
  }

  // ---------------------------------------------------------------------
  // Deleting characters.

  /** Deleting one set of characters and then another deletes their union. */
  lemma {:induction false} WithoutTwice(s: string, a: set<char>, b: set<char>)
    ensures Without(Without(s, a), b) == Without(s, a + b)
    decreases |s|
  {
    if |s| > 0 {
      WithoutTwice(s[1..], a, b);
      if s[0] !in a {
        assert ([s[0]] + Without(s[1..], a))[1..] == Without(s[1..], a);
      }
    }
  }

  /** `s.replace(c, '')` for one character deletes every occurrence of it. */
  lemma {:induction false} ReplaceCharByNothing(s: string, c: char)
    ensures ReplaceAll(s, [c], "") == Without(s, {c})
    decreases |s|
  {
    if |s| > 0 {
      ReplaceCharByNothing(s[1..], c);
    }
  }

  /** Replacing a one-character pattern works piece by piece. */
  lemma {:induction false} ReplaceCharAppend(x: string, y: string, c: char, rep: string)
    ensures ReplaceAll(x + y, [c], rep) == ReplaceAll(x, [c], rep) + ReplaceAll(y, [c], rep)
    decreases |x|
  {
    if |x| > 0 {
      ReplaceCharAppend(x[1..], y, c, rep);
      assert (x + y)[1..] == x[1..] + y;
      assert (x + y)[..1] == x[..1];
    } else {
      assert x + y == y;
    }
  }

  /** Removing characters that do not occur leaves the text as it is. */
  lemma {:induction false} WithoutNone(s: string, chars: set<char>)
    requires forall i :: 0 <= i < |s| ==> s[i] !in chars
    ensures Without(s, chars) == s
    decreases |s|
  {
    if |s| > 0 {
      WithoutNone(s[1..], chars);
      assert s == [s[0]] + s[1..];
    }
  }

  // ---------------------------------------------------------------------
  // The operations taken piece by piece, for working through given text.

  /** Deleting characters works piece by piece. */
  lemma {:induction false} WithoutAppend(x: string, y: string, chars: set<char>)
    ensures Without(x + y, chars) == Without(x, chars) + Without(y, chars)
    decreases |x|
  {
    if |x| > 0 {
      WithoutAppend(x[1..], y, chars);
      assert (x + y)[1..] == x[1..] + y;
    } else {
      assert x + y == y;
    }
  }

  /** A piece that cannot start the pattern is passed over by `replace`. */
  lemma {:induction false} ReplaceAllSkip(x: string, y: string, pat: string, rep: string)
    requires |pat| > 0 && pat[0] !in x
    ensures ReplaceAll(x + y, pat, rep) == x + ReplaceAll(y, pat, rep)
    decreases |x|
  {
    if |x| > 0 {
      ReplaceAllSkip(x[1..], y, pat, rep);
      assert (x + y)[1..] == x[1..] + y;
      if |x + y| >= |pat| {
        assert (x + y)[..|pat|][0] == x[0];
      } else {
        assert |y| < |pat|;
      }
    } else {
      assert x + y == y;
    }
  }

  /** An occurrence of the pattern at the front is replaced. */
  lemma ReplaceAllHit(y: string, pat: string, rep: string)
    requires |pat| > 0
    ensures ReplaceAll(pat + y, pat, rep) == rep + ReplaceAll(y, pat, rep)
  {
    assert (pat + y)[..|pat|] == pat && (pat + y)[|pat|..] == y;
  }

  /** Stripping a tail of stripped characters behind a kept one. */
  lemma {:induction false} StripRightTail(n: string, tail: string, chars: set<char>)
    requires |n| > 0 && n[|n| - 1] !in chars
    requires forall i :: 0 <= i < |tail| ==> tail[i] in chars
    ensures StripRight(n + tail, chars) == n
    decreases |tail|
  {
    if |tail| > 0 {
      var shorter := tail[..|tail| - 1];
      StripRightTail(n, shorter, chars);
      assert (n + tail)[..|n + tail| - 1] == n + shorter;
    } else {
      assert n + tail == n;
    }
  }

  /** `strip` of a text whose ends are kept, followed by characters it strips. */
  lemma StripTail(n: string, tail: string, chars: set<char>)
    requires |n| > 0 && n[0] !in chars && n[|n| - 1] !in chars
    requires forall i :: 0 <= i < |tail| ==> tail[i] in chars
    ensures Strip(n + tail, chars) == n
  {
    assert (n + tail)[0] == n[0];
    assert StripLeft(n + tail, chars) == n + tail;
    StripRightTail(n, tail, chars);
  }

  /** Whitespace in front of the fields is passed over. */
  lemma FieldsSpace(c: char, t: string)
    requires c in Whitespace
    ensures Fields([c] + t) == Fields(t)
  {
    assert ([c] + t)[1..] == t;
  }

  /** A word ends at the first whitespace. */
  lemma {:induction false} WordBefore(w: string, t: string)
    requires |t| > 0 && t[0] in Whitespace && forall i :: 0 <= i < |w| ==> w[i] !in Whitespace
    ensures Word(w + t) == w
    decreases |w|
  {
    if |w| > 0 {
      WordBefore(w[1..], t);
      assert (w + t)[1..] == w[1..] + t;
    } else {
      assert w + t == t;
    }
  }

  /** A word followed by whitespace is the first field. */
  lemma FieldsWord(w: string, t: string)
    requires |w| > 0 && forall i :: 0 <= i < |w| ==> w[i] !in Whitespace
    requires |t| > 0 && t[0] in Whitespace
    ensures Fields(w + t) == [w] + Fields(t)
  {
    var s := w + t;
    WordBefore(w, t);
    assert s[0] == w[0] && s[|w|..] == t;
    assert Fields(s) == [Word(s)] + Fields(s[|Word(s)|..]);
  }

  /** Concatenation regrouped to the right. */
  lemma AppendAssoc<T>(p: seq<T>, q: seq<T>, r: seq<T>)
    ensures p + q + r == p + (q + r)
  {
  }

  /** Deleting one character that is to be deleted leaves nothing. */
  lemma DeleteOne(x: char, chars: set<char>)
    requires x in chars
    ensures Without([x], chars) == ""
  {
    assert [x][1..] == [];
  }

  /** A kept piece followed by one character that is deleted. */
  lemma KeepThenDelete(a: string, x: char, chars: set<char>)
    requires x in chars && forall i :: 0 <= i < |a| ==> a[i] !in chars
    ensures Without(a + [x], chars) == a
  {
    WithoutAppend(a, [x], chars);
    WithoutNone(a, chars);
    DeleteOne(x, chars);
    assert a + "" == a;
  }

  /** Two texts that deletion leaves alone are left alone together. */
  lemma KeepBoth(a: string, b: string, chars: set<char>)
    requires Without(a, chars) == a && Without(b, chars) == b
    ensures Without(a + b, chars) == a + b
  {
    WithoutAppend(a, b, chars);
  }

  /** Two deleted characters, each behind a piece that is kept. */
  lemma DeleteTwo(a: string, x: char, b: string, y: char, chars: set<char>)
    requires x in chars && y in chars
    requires forall i :: 0 <= i < |a| ==> a[i] !in chars
    requires forall i :: 0 <= i < |b| ==> b[i] !in chars
    ensures Without(a + [x] + b + [y], chars) == a + b
  {
    KeepThenDelete(a, x, chars);
    KeepThenDelete(b, y, chars);
    WithoutAppend(a + [x], b + [y], chars);
    AppendAssoc(a + [x], b, [y]);
  }

  /** `replace` leaves a text without the pattern's first character alone. */
  lemma ReplaceNone(x: string, pat: string, rep: string)
    requires |pat| > 0 && pat[0] !in x
    ensures ReplaceAll(x, pat, rep) == x
  {
    ReplaceAllSkip(x, "", pat, rep);
    assert x + "" == x;
  }

  /** Two occurrences of the pattern between pieces that cannot start it. */
  lemma ReplaceTwo(x: string, y: string, z: string, pat: string, rep: string)
    requires |pat| > 0 && pat[0] !in x && pat[0] !in y && pat[0] !in z
    ensures ReplaceAll(x + pat + y + pat + z, pat, rep) == x + rep + y + rep + z
  {
    ReplaceNone(z, pat, rep);
    ReplaceAllHit(z, pat, rep);
    ReplaceAllSkip(y, pat + z, pat, rep);
    ReplaceAllHit(y + (pat + z), pat, rep);
    ReplaceAllSkip(x, pat + (y + (pat + z)), pat, rep);
    Reassoc5(x, pat, y, pat, z);
    Reassoc5(x, rep, y, rep, z);
  }

  /** Five pieces regrouped to the right. */
  lemma Reassoc5<T>(a: seq<T>, b: seq<T>, c: seq<T>, d: seq<T>, e: seq<T>)
    ensures a + b + c + d + e == a + (b + (c + (d + e)))
  {
    AppendAssoc(a + b + c, d, e);
    AppendAssoc(a + b, c, d + e);
    AppendAssoc(a, b, c + (d + e));
  }

  /** Seven pieces regrouped to the right. */
  lemma Reassoc7<T>(a: seq<T>, b: seq<T>, c: seq<T>, d: seq<T>, e: seq<T>, f: seq<T>, g: seq<T>)
    ensures a + b + c + d + e + f + g == a + (b + (c + (d + (e + (f + g)))))
  {
    AppendAssoc(a + b + c + d + e, f, g);
    AppendAssoc(a + b + c + d, e, f + g);
    Reassoc5(a, b, c, d, e + (f + g));
  }

  /** Two pieces around one pattern each, taken as one text around two. */
  lemma Regroup<T>(p: seq<T>, d: seq<T>, q: seq<T>, r: seq<T>, s: seq<T>)
    ensures (p + d + q) + (r + d + s) == p + d + (q + r) + d + s
  {
    Reassoc5(p, d, q + r, d, s);
    AppendAssoc(p + d, q, r);
    AppendAssoc(p + d + q, r, d + s);
    AppendAssoc(r, d, s);
    AppendAssoc(p + d + q + r, d, s);
  }

  /** Splitting at the one separator between two pieces. */
  lemma SplitTwo(h0: string, h1: string, sep: char)
    requires sep !in h0 && sep !in h1
    ensures Split(h0 + [sep] + h1, sep) == [h0, h1]
    ensures Count(h0 + [sep] + h1, sep) == 1
  {
    assert [h0, h1][1..] == [h1];
    assert Join([h0, h1], sep) == h0 + [sep] + h1;
    SplitJoin([h0, h1], sep);
  }

  /** Every character is whitespace. */
  predicate AllWhitespace(s: string) {
    forall i :: 0 <= i < |s| ==> s[i] in Whitespace
  }

  /** A non-empty text holding no whitespace. */
  predicate IsWord(s: string) {
    |s| > 0 && forall i :: 0 <= i < |s| ==> s[i] !in Whitespace
  }

  /** Leading whitespace is passed over by `split()`. */
  lemma {:induction false} FieldsSpaces(sp: string, t: string)
    requires AllWhitespace(sp)
    ensures Fields(sp + t) == Fields(t)
    decreases |sp|
  {
    if |sp| > 0 {
      FieldsSpaces(sp[1..], t);
      assert sp + t == [sp[0]] + (sp[1..] + t);
      FieldsSpace(sp[0], sp[1..] + t);
    } else {
      assert sp + t == t;
    }
  }

  /** A text holding no whitespace is its own first word. */
  lemma {:induction false} WordWhole(w: string)
    requires forall i :: 0 <= i < |w| ==> w[i] !in Whitespace
    ensures Word(w) == w
    decreases |w|
  {
    if |w| > 0 {
      WordWhole(w[1..]);
    }
  }

  /** A word and the whitespace behind it give one field. */
  lemma FieldsOfWord(w: string, sp: string, t: string)
    requires IsWord(w) && AllWhitespace(sp) && |sp| > 0
    ensures Fields(w + (sp + t)) == [w] + Fields(t)
  {
    FieldsWord(w, sp + t);
    FieldsSpaces(sp, t);
  }

  /** A word alone is one field. */
  lemma FieldsOfLastWord(w: string)
    requires IsWord(w)
    ensures Fields(w) == [w]
  {
    WordWhole(w);
    assert w[0] !in Whitespace && w[|w|..] == "";
    assert Fields(w) == [Word(w)] + Fields(w[|Word(w)|..]);
  }

  /** Three words with whitespace between them and around them are the
      three fields of `split()`. */
  lemma ThreeFields(pre: string, w0: string, s1: string, w1: string, s2: string, w2: string, post: string)
    requires AllWhitespace(pre) && AllWhitespace(s1) && AllWhitespace(s2) && AllWhitespace(post)
    requires |s1| > 0 && |s2| > 0
    requires IsWord(w0) && IsWord(w1) && IsWord(w2)
    ensures Fields(pre + w0 + s1 + w1 + s2 + w2 + post) == [w0, w1, w2]
  {
    var last := w2 + post;
    if |post| > 0 {
      FieldsOfWord(w2, post, "");
      assert post + "" == post;
    } else {
      FieldsOfLastWord(w2);
      assert last == w2;
    }
    FieldsOfWord(w1, s2, last);
    FieldsOfWord(w0, s1, w1 + (s2 + last));
    FieldsSpaces(pre, w0 + (s1 + (w1 + (s2 + last))));
    Reassoc7(pre, w0, s1, w1, s2, w2, post);
  }
}
