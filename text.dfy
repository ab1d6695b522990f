/**
 The string primitives the bot relies on: `str::trim`, `str::split_whitespace` and
 `str::to_lowercase`. Whitespace is exactly Rust's `char::is_whitespace` (the Unicode
 White_Space property); lowercasing is modelled for ASCII letters only.
 */
module Text {

  /** The code points of Rust's `char::is_whitespace` (the Unicode White_Space
      property): U+0009..U+000D, U+0020, U+0085, U+00A0, U+1680, U+2000..U+200A,
      U+2028, U+2029, U+202F, U+205F and U+3000. */
  const WhitespaceCodes: set<int> :=
    {0x9, 0xA, 0xB, 0xC, 0xD, 0x20, 0x85, 0xA0, 0x1680,
     0x2000, 0x2001, 0x2002, 0x2003, 0x2004, 0x2005, 0x2006, 0x2007, 0x2008, 0x2009, 0x200A,
     0x2028, 0x2029, 0x202F, 0x205F, 0x3000}

  predicate IsWhitespace(c: char) {
    c as int in WhitespaceCodes
  }

  predicate NoWhitespace(s: string) {
    forall k :: 0 <= k < |s| ==> !IsWhitespace(s[k])
  }

  /** Neither end of `s` is whitespace: what `trim` leaves behind. */
  predicate IsTrimmed(s: string) {
    s == [] || (!IsWhitespace(s[0]) && !IsWhitespace(s[|s| - 1]))
  }

  /** Lowercasing of one character; letters outside ASCII are left as they are. */
  function LowerChar(c: char): (d: char)
    ensures IsWhitespace(d) <==> IsWhitespace(c)
    ensures !('A' <= d <= 'Z')
    ensures !('A' <= c <= 'Z') ==> d == c
  {
    if 'A' <= c <= 'Z' then (c as int + 32) as char else c
  }

  /** Two characters lowercase alike exactly when they are equal or are the capital and
      the small form of the same ASCII letter. */
  lemma LowerCharCaseless(c: char, d: char)
    ensures LowerChar(c) == LowerChar(d) <==>
              || c == d
              || ('A' <= c <= 'Z' && d as int == c as int + 32)
              || ('A' <= d <= 'Z' && c as int == d as int + 32)
  {
  }

  /** `to_lowercase`, character by character (see `ToLowerAt`). */
  function ToLower(s: string): (r: string)
    ensures |r| == |s|
  {
    if s == [] then [] else [LowerChar(s[0])] + ToLower(s[1..])
  }

  /** Lowercasing keeps every character where it stands and lowercases it. */
  lemma {:induction false} ToLowerAt(s: string)
    ensures forall k :: 0 <= k < |s| ==> ToLower(s)[k] == LowerChar(s[k])
  {
    if s != [] {
      ToLowerAt(s[1..]);
    }
  }

  /** `trim_start`: drops the leading run of whitespace (see `TrimStartCuts`). */
  function TrimStart(s: string): (r: string)
    ensures |r| <= |s|
    ensures r == [] || !IsWhitespace(r[0])
  {
    if s != [] && IsWhitespace(s[0]) then TrimStart(s[1..]) else s
  }

  /** `trim_end`: drops the trailing run of whitespace (see `TrimEndCuts`). */
  function TrimEnd(s: string): (r: string)
    ensures |r| <= |s| && r == s[..|r|]
    ensures r == [] || !IsWhitespace(r[|r| - 1])
  {
    if s != [] && IsWhitespace(s[|s| - 1]) then TrimEnd(s[..|s| - 1]) else s
  }

  /** What `trim_start` drops is whitespace, and what it keeps is the rest of `s`. */
  lemma {:induction false} TrimStartCuts(s: string)
    ensures TrimStart(s) == s[|s| - |TrimStart(s)|..]
    ensures forall k :: 0 <= k < |s| - |TrimStart(s)| ==> IsWhitespace(s[k])
  {
    if s != [] && IsWhitespace(s[0]) {
      TrimStartCuts(s[1..]);
    }
  }

  /** What `trim_end` drops is whitespace. */
  lemma {:induction false} TrimEndCuts(s: string)
    ensures forall k :: |TrimEnd(s)| <= k < |s| ==> IsWhitespace(s[k])
  {
    if s != [] && IsWhitespace(s[|s| - 1]) {
      TrimEndCuts(s[..|s| - 1]);
    }
  }

  /** `r` is the infix of `s` starting at `i`, and everything around it is whitespace. */
  predicate CutOut(s: string, i: int, r: string) {
    && 0 <= i <= |s| - |r| && r == s[i..i + |r|]
    && (forall k :: 0 <= k < i ==> IsWhitespace(s[k]))
    && (forall k :: i + |r| <= k < |s| ==> IsWhitespace(s[k]))
  }

  /** `trim`: drops whitespace from both ends (see `TrimCutsWhitespace`). */
  function Trim(s: string): (r: string)
    ensures IsTrimmed(r)
    ensures |r| <= |s|
  {
    TrimEnd(TrimStart(s))
  }

  /** What `trim` returns is an infix of its input that neither starts nor ends with
      whitespace, and everything cut off on either side is whitespace. */
  lemma TrimCutsWhitespace(s: string)
    ensures IsTrimmed(Trim(s))
    ensures exists i :: CutOut(s, i, Trim(s))
  {
    var t := TrimStart(s);
    var r := TrimEnd(t);
    var i := |s| - |t|;
    TrimStartCuts(s);
    TrimEndCuts(t);
    assert r == s[i..i + |r|] by {
      assert t == s[i..];
    }
    forall k | i + |r| <= k < |s|
      ensures IsWhitespace(s[k])
    {
      assert s[k] == t[k - i];
    }
    assert CutOut(s, i, r);
  }

  /** Length of the run of non-whitespace characters at the start of `s`. */
  function WordLen(s: string): (n: nat)
    ensures n <= |s|
    ensures forall k :: 0 <= k < n ==> !IsWhitespace(s[k])
    ensures n == |s| || IsWhitespace(s[n])
  {
    if s == [] || IsWhitespace(s[0]) then 0 else 1 + WordLen(s[1..])
  }

  /** `split_whitespace`: the maximal runs of non-whitespace characters, in order. */
  function Words(s: string): (ws: seq<string>)
    ensures forall i :: 0 <= i < |ws| ==> ws[i] != [] && NoWhitespace(ws[i])
    decreases |s|
  {
    if s == [] then []
    else if IsWhitespace(s[0]) then Words(s[1..])
    else
      var n := WordLen(s);
      [s[..n]] + Words(s[n..])
  }

  // ---------------------------------------------------------------------------
  // Lowercasing and trimming

  /** Lowercasing twice is lowercasing once. */
  lemma ToLowerIdempotent(s: string)
    ensures ToLower(ToLower(s)) == ToLower(s)
  {
    ToLowerAt(s);
    ToLowerAt(ToLower(s));
  }

  /** A string without ASCII capitals is its own lowercase form. */
  lemma ToLowerOfLowercase(s: string)
    requires forall k :: 0 <= k < |s| ==> !('A' <= s[k] <= 'Z')
    ensures ToLower(s) == s
  {
    ToLowerAt(s);
  }

  /** Lowercasing does not move whitespace, so a trimmed string stays trimmed. */
  lemma ToLowerKeepsTrimmed(s: string)
    requires IsTrimmed(s)
    ensures IsTrimmed(ToLower(s))
  {
    ToLowerAt(s);
  }

  /** Trimming a string that is already trimmed changes nothing. */
  lemma TrimOfTrimmed(s: string)
    requires IsTrimmed(s)
    ensures Trim(s) == s
  {
  }

  /** A line normalised as the list loader does it (trim, then lowercase) is a fixed
      point of both trimming and lowercasing. */
  lemma NormalizedIsFixed(line: string)
    ensures var e := ToLower(Trim(line));
            Trim(e) == e && ToLower(e) == e && |e| == |Trim(line)|
  {
    var t := Trim(line);
    ToLowerKeepsTrimmed(t);
    TrimOfTrimmed(ToLower(t));
    ToLowerIdempotent(t);
  }

  // ---------------------------------------------------------------------------
  // Splitting into words

  /** `WordLen` is pinned down by its postcondition: the first whitespace or the end. */
  lemma WordLenUnique(s: string, n: nat)
    requires n <= |s|
    requires forall k :: 0 <= k < n ==> !IsWhitespace(s[k])
    requires n == |s| || IsWhitespace(s[n])
    ensures WordLen(s) == n
  {
  }

  /** A non-empty string without whitespace is a single word. */
  lemma {:induction false} SingleWord(w: string)
    requires w != [] && NoWhitespace(w)
    ensures Words(w) == [w]
  {
    WordLenUnique(w, |w|);
    assert w[..|w|] == w && w[|w|..] == [];
  }

  /** Whitespace separates words: splitting `a`, one whitespace character, then `b`
      gives the words of `a` followed by the words of `b`. */
  lemma {:induction false} WordsAroundSeparator(a: string, c: char, b: string)
    requires IsWhitespace(c)
    ensures Words(a + [c] + b) == Words(a) + Words(b)
    decreases |a|
  {
    var s := a + [c] + b;
    if a == [] {
      assert s[1..] == b;
    } else if IsWhitespace(a[0]) {
      assert s[1..] == a[1..] + [c] + b;
      WordsAroundSeparator(a[1..], c, b);
    } else {
      var m := WordLen(a);
      WordLenUnique(s, m);
      assert s[..m] == a[..m];
      assert s[m..] == a[m..] + [c] + b;
      WordsAroundSeparator(a[m..], c, b);
    }
  }

  /** Lowercasing keeps the length of the leading word. */
  lemma WordLenOfLower(s: string)
    ensures WordLen(ToLower(s)) == WordLen(s)
  {
    ToLowerAt(s);
    WordLenUnique(ToLower(s), WordLen(s));
  }

  /** Lowercasing a concatenation lowercases each part. */
  lemma {:induction false} ToLowerConcat(a: string, b: string)
    ensures ToLower(a + b) == ToLower(a) + ToLower(b)
  {
    if a == [] {
      assert a + b == b;
    } else {
      assert (a + b)[0] == a[0] && (a + b)[1..] == a[1..] + b;
      ToLowerConcat(a[1..], b);
    }
  }

  /** Lowercasing commutes with cutting `s` at `n`. */
  lemma ToLowerSplit(s: string, n: nat)
    requires n <= |s|
    ensures ToLower(s)[..n] == ToLower(s[..n])
    ensures ToLower(s)[n..] == ToLower(s[n..])
  {
    var a, b := s[..n], s[n..];
    assert a + b == s;
    ToLowerConcat(a, b);
    var p, q := ToLower(a), ToLower(b);
    assert (p + q)[..n] == p && (p + q)[n..] == q;
  }

  /** Lowercasing the text lowercases each word and keeps the word boundaries. */
  lemma {:induction false} WordsOfLower(s: string)
    ensures |Words(ToLower(s))| == |Words(s)|
    ensures forall i :: 0 <= i < |Words(s)| ==> Words(ToLower(s))[i] == ToLower(Words(s)[i])
    decreases |s|
  {
    var l := ToLower(s);
    if s == [] {
    } else if IsWhitespace(s[0]) {
      ToLowerSplit(s, 1);
      assert IsWhitespace(l[0]);
      WordsOfLower(s[1..]);
    } else {
      var n := WordLen(s);
      WordLenOfLower(s);
      ToLowerSplit(s, n);
      assert !IsWhitespace(l[0]) by { ToLowerAt(s); }
      WordsOfLower(s[n..]);
      assert Words(l) == [ToLower(s[..n])] + Words(ToLower(s[n..]));
    }
  }
}
