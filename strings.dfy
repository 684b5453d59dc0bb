/**
 * The Python `str` operations the scripts use, written over `seq<char>`:
 * slicing with clamped bounds, `split`, `strip`, `join`, `lower`/`upper`,
 * substring search, `replace` and prefix tests.
 */
module Strings {
  import opened Wrappers
  import opened Lists

  /** `str.isspace()` for one character: the code points CPython classes as whitespace. */
  predicate IsSpace(c: char) {
    var n := c as int;
    (9 <= n <= 13) || (28 <= n <= 32) || n == 0x85 || n == 0xA0 || n == 0x1680
    || (0x2000 <= n <= 0x200A) || n == 0x2028 || n == 0x2029 || n == 0x202F
    || n == 0x205F || n == 0x3000
  }

  /** An ASCII decimal digit (what `\d` matches in the texts this model covers). */
  predicate IsDigit(c: char) { '0' <= c <= '9' }

  predicate IsLowerAscii(c: char) { 'a' <= c <= 'z' }

  /** The value of an ASCII digit (and 0 for any other character). */
  function DigitValue(c: char): (d: nat)
    ensures d <= 9
  {
    if IsDigit(c) then c as int - '0' as int else 0
  }

  /** `int(ds)` for a string of ASCII digits. */
  function DigitsValue(ds: string): nat {
    if ds == [] then 0 else DigitsValue(ds[..|ds| - 1]) * 10 + DigitValue(ds[|ds| - 1])
  }

  /** `str(n)` for a non-negative integer: its decimal digits, without leading zeros. */
  function Decimal(n: nat): (r: string)
    ensures r != [] && forall i :: 0 <= i < |r| ==> IsDigit(r[i])
    ensures |r| > 1 ==> r[0] != '0'
  {
    var last := ('0' as int + n % 10) as char;
    if n < 10 then [last] else Decimal(n / 10) + [last]
  }

  /** Reading the digits back gives the number. */
  lemma {:induction false} DecimalValue(n: nat)
    ensures DigitsValue(Decimal(n)) == n
  {
    var r := Decimal(n);
    if n >= 10 {
      DecimalValue(n / 10);
      assert r[..|r| - 1] == Decimal(n / 10);
    }
  }

  /** `s[n:]` for a non-negative `n`. */
  function Drop(s: string, n: nat): (r: string)
    ensures |r| == if n <= |s| then |s| - n else 0
    ensures r == s[|s| - |r|..]
  {
    if n <= |s| then s[n..] else []
  }

  /** `s[i:j]` for non-negative bounds. */
  function Slice(s: string, i: nat, j: nat): (r: string)
    ensures i <= j <= |s| ==> r == s[i..j]
  {
    Drop(First(s, j), i)
  }

  /** Length of the leading run of characters satisfying `p`. */
  function RunLength(s: string, p: char -> bool): (n: nat)
    ensures n <= |s|
    ensures forall i :: 0 <= i < n ==> p(s[i])
    ensures n == |s| || !p(s[n])
  {
    if s == [] || !p(s[0]) then 0 else 1 + RunLength(s[1..], p)
  }

  /** `s.rsplit(c, 1)[-1]`. */
  function AfterLast(s: string, c: char): string {
    if s == [] then []
    else if s[|s| - 1] == c then []
    else AfterLast(s[..|s| - 1], c) + [s[|s| - 1]]
  }

  /**
   * What `rsplit` keeps is the longest suffix of `s` free of `c`; when `c`
   * occurs, the character before that suffix is `c`.
   */
  lemma {:induction false} AfterLastFacts(s: string, c: char)
    ensures var r := AfterLast(s, c);
      && |r| <= |s| && r == s[|s| - |r|..] && c !in r
      && (c in s ==> |r| < |s| && s[|s| - |r| - 1] == c)
      && (c !in s ==> r == s)
  {
    if s != [] && s[|s| - 1] != c {
      var init, last := s[..|s| - 1], s[|s| - 1];
      AfterLastFacts(init, c);
      var r := AfterLast(init, c);
      assert s == init + [last];
      assert r + [last] == s[|init| - |r|..];
    }
  }

  /** `s.startswith(p)`. */
  predicate StartsWith(s: string, p: string) {
    |p| <= |s| && s[..|p|] == p
  }

  /** `s.endswith(p)`. */
  predicate EndsWith(s: string, p: string) {
    |p| <= |s| && s[|s| - |p|..] == p
  }

  /** `s.count(c)` for a single character. */
  function Count(s: string, c: char): nat {
    if s == [] then 0 else (if s[0] == c then 1 else 0) + Count(s[1..], c)
  }

  // ---------------------------------------------------------------------------
  // split on one character, and join

  /** `sep.join(parts)`. */
  function Join(sep: string, parts: seq<string>): string {
    if |parts| == 0 then ""
    else if |parts| == 1 then parts[0]
    else parts[0] + sep + Join(sep, parts[1..])
  }

  /** `s.split(c)` for a one-character separator: never empty, one more piece than separators. */
  function SplitOn(s: string, c: char): (r: seq<string>)
    ensures |r| >= 1
  {
    if s == [] then [""]
    else
      var rest := SplitOn(s[1..], c);
      if s[0] == c then [""] + rest else [[s[0]] + rest[0]] + rest[1..]
  }

  lemma {:induction false} SplitOnNoSeparator(s: string, c: char)
    requires c !in s
    ensures SplitOn(s, c) == [s]
  {
    if s != [] {
      SplitOnNoSeparator(s[1..], c);
      assert s == [s[0]] + s[1..];
    }
  }

  /** `c` occurs in `s` exactly when `s.count(c)` is positive. */
  lemma {:induction false} CountPositive(s: string, c: char)
    ensures Count(s, c) > 0 <==> c in s
  {
    if s != [] {
      CountPositive(s[1..], c);
      assert s == [s[0]] + s[1..];
    }
  }

  /** Joining the pieces of `s.split(c)` with `c` gives back `s`. */
  lemma {:induction false} SplitOnJoin(s: string, c: char)
    ensures Join([c], SplitOn(s, c)) == s
  {
    if s != [] {
      SplitOnJoin(s[1..], c);
      var rest := SplitOn(s[1..], c);
      if s[0] == c {
        assert SplitOn(s, c) == [""] + rest;
        assert ([""] + rest)[1..] == rest;
      } else if |rest| == 1 {
        assert SplitOn(s, c) == [[s[0]] + rest[0]];
      } else {
        var r := [[s[0]] + rest[0]] + rest[1..];
        assert SplitOn(s, c) == r;
        assert r[1..] == rest[1..];
        assert Join([c], rest) == rest[0] + [c] + Join([c], rest[1..]);
        assert Join([c], r) == [s[0]] + rest[0] + [c] + Join([c], rest[1..]);
      }
    }
  }

  /** `s.split(c)` has exactly `s.count(c) + 1` pieces. */
  lemma {:induction false} SplitOnLength(s: string, c: char)
    ensures |SplitOn(s, c)| == Count(s, c) + 1
  {
    if s != [] {
      SplitOnLength(s[1..], c);
    }
  }

  /** No piece of `s.split(c)` contains `c`. */
  lemma {:induction false} SplitOnPieces(s: string, c: char)
    ensures forall k :: 0 <= k < |SplitOn(s, c)| ==> c !in SplitOn(s, c)[k]
  {
    if s != [] {
      SplitOnPieces(s[1..], c);
      var rest := SplitOn(s[1..], c);
      if s[0] != c {
        assert forall k :: 1 <= k < |SplitOn(s, c)| ==> SplitOn(s, c)[k] == rest[k];
      } else {
        assert forall k :: 1 <= k < |SplitOn(s, c)| ==> SplitOn(s, c)[k] == rest[k - 1];
      }
    }
  }

  /**
   * The last piece of `s.split(c)` is the longest suffix of `s` without `c`:
   * it is either all of `s` or it follows an occurrence of `c`.
   */
  lemma {:induction false} SplitOnLast(s: string, c: char)
    ensures LastPiece(s, c, SplitOn(s, c)[|SplitOn(s, c)| - 1])
    decreases |s|
  {
    var k := IndexOf(s, c);
    if k == |s| {
      assert s[..k] == s;
      SplitOnNoSeparator(s, c);
    } else {
      SplitOnAt(s, c, k);
      var rest := s[k + 1..];
      SplitOnLast(rest, c);
      var pieces := SplitOn(rest, c);
      var last := pieces[|pieces| - 1];
      LastOfCons(s[..k], pieces);
      LastPieceAfter(s, c, k, last);
    }
  }

  /** The position of the first `c` in `s`, or `|s|` when there is none. */
  function IndexOf(s: string, c: char): (k: nat)
    ensures k <= |s| && c !in s[..k] && (k < |s| ==> s[k] == c)
  {
    if s == [] || s[0] == c then 0
    else
      var k := IndexOf(s[1..], c);
      assert s[..k + 1] == [s[0]] + s[1..][..k];
      k + 1
  }

  /** A last piece of the text after an occurrence of `c` is a last piece of the whole text. */
  lemma LastPieceAfter(s: string, c: char, k: nat, last: string)
    requires k < |s| && s[k] == c && LastPiece(s[k + 1..], c, last)
    ensures LastPiece(s, c, last)
  {
    var rest := s[k + 1..];
    DropOfDrop(s, k + 1, |rest| - |last|);
    if |last| < |rest| {
      assert rest[|rest| - |last| - 1] == s[|s| - |last| - 1];
    }
  }

  lemma LastOfCons<T>(x: T, xs: seq<T>)
    requires xs != []
    ensures ([x] + xs)[|[x] + xs| - 1] == xs[|xs| - 1]
  {
  }

  lemma DropOfDrop(s: string, i: nat, j: nat)
    requires i <= |s| && j <= |s| - i
    ensures s[i..][j..] == s[i + j..]
  {
  }

  /**
   * `last` is a suffix of `s` without `c` that is either all of `s` or
   * follows an occurrence of `c`.
   */
  predicate LastPiece(s: string, c: char, last: string) {
    && |last| <= |s| && last == s[|s| - |last|..] && c !in last
    && (|last| == |s| || s[|s| - |last| - 1] == c)
  }

  lemma DropOfTail(s: string, a: nat)
    requires 0 < |s| && a <= |s| - 1
    ensures s[1..][a..] == s[a + 1..]
  {
  }

  /**
   * When the first `c` of `s` is at `k`, the first piece of `s.split(c)` is
   * the text before it and the other pieces are the split of the rest.
   */
  lemma {:induction false} SplitOnAt(s: string, c: char, k: nat)
    requires k < |s| && s[k] == c && c !in s[..k]
    ensures SplitOn(s, c) == [s[..k]] + SplitOn(s[k + 1..], c)
  {
    if k > 0 {
      assert s[1..][..k - 1] == s[1..k];
      assert s[1..][k - 1] == c;
      SplitOnAt(s[1..], c, k - 1);
      assert s[1..][k..] == s[k + 1..];
      assert [s[0]] + s[1..k] == s[..k];
    }
  }

  // ---------------------------------------------------------------------------
  // strip and whitespace split

  /** The end of the whitespace run that starts at `i`. */
  function SkipSpaces(s: string, i: nat): (j: nat)
    requires i <= |s|
    ensures i <= j <= |s|
    ensures forall k :: i <= k < j ==> IsSpace(s[k])
    ensures j == |s| || !IsSpace(s[j])
    decreases |s| - i
  {
    if i == |s| || !IsSpace(s[i]) then i else SkipSpaces(s, i + 1)
  }

  /** A whitespace run that stops at a non-whitespace character is the one `SkipSpaces` finds. */
  lemma SkipSpacesExact(s: string, i: nat, a: nat)
    requires i <= a < |s| && !IsSpace(s[a])
    requires forall k :: i <= k < a ==> IsSpace(s[k])
    ensures SkipSpaces(s, i) == a
  {
  }

  /** The end of `s[lo..hi]` once the whitespace run that ends at `hi` is dropped. */
  function SkipSpacesBack(s: string, lo: nat, hi: nat): (j: nat)
    requires lo <= hi <= |s|
    ensures lo <= j <= hi
    ensures forall k :: j <= k < hi ==> IsSpace(s[k])
    ensures j == lo || !IsSpace(s[j - 1])
    decreases hi
  {
    if hi == lo || !IsSpace(s[hi - 1]) then hi else SkipSpacesBack(s, lo, hi - 1)
  }

  /** `s.strip()`. */
  function Strip(s: string): (r: string)
    ensures |r| <= |s|
  {
    var i := SkipSpaces(s, 0);
    s[i..SkipSpacesBack(s, i, |s|)]
  }

  /** A stripped text is a slice of the text without whitespace at either end; it is empty iff the text is all whitespace. */
  lemma StripSpec(s: string)
    ensures var r := Strip(s);
      && (exists i :: OccursAt(s, r, i))
      && (r == [] || (!IsSpace(r[0]) && !IsSpace(r[|r| - 1])))
      && (r == [] <==> forall i :: 0 <= i < |s| ==> IsSpace(s[i]))
  {
    var i := SkipSpaces(s, 0);
    var j := SkipSpacesBack(s, i, |s|);
    var r := Strip(s);
    assert r == s[i..j];
    assert OccursAt(s, r, i);
    if r != [] {
      assert r[0] == s[i] && r[|r| - 1] == s[j - 1];
    }
  }

  /** The end of the run of non-whitespace characters that starts at `i`. */
  function WordEnd(s: string, i: nat): (j: nat)
    requires i <= |s|
    ensures i <= j <= |s|
    ensures forall k :: i <= k < j ==> !IsSpace(s[k])
    ensures j == |s| || IsSpace(s[j])
    decreases |s| - i
  {
    if i == |s| || IsSpace(s[i]) then i else WordEnd(s, i + 1)
  }

  /** A word of `str.split()`: non-empty and free of whitespace. */
  predicate IsWord(w: string) {
    w != [] && forall i :: 0 <= i < |w| ==> !IsSpace(w[i])
  }

  /** The words of `s[i..]`. */
  function WordsFrom(s: string, i: nat): (ws: seq<string>)
    requires i <= |s|
    ensures forall k :: 0 <= k < |ws| ==> IsWord(ws[k])
    decreases |s| - i
  {
    var j := SkipSpaces(s, i);
    if j == |s| then []
    else [s[j..WordEnd(s, j)]] + WordsFrom(s, WordEnd(s, j))
  }

  /** `s.split()` with no argument: the maximal runs of non-whitespace characters. */
  function Words(s: string): (ws: seq<string>)
    ensures forall k :: 0 <= k < |ws| ==> IsWord(ws[k])
  {
    WordsFrom(s, 0)
  }

  /** `a[i..] == b[j..]`, element by element. */
  predicate SameFrom(a: string, i: nat, b: string, j: nat) {
    i <= |a| && j <= |b| && |a| - i == |b| - j && forall k :: i <= k < |a| ==> a[k] == b[k - i + j]
  }

  lemma {:induction false} SkipSpacesSuffix(a: string, i: nat, b: string, j: nat)
    requires SameFrom(a, i, b, j)
    ensures SkipSpaces(a, i) - i == SkipSpaces(b, j) - j
    decreases |a| - i
  {
    if i < |a| {
      assert a[i] == b[j];
      assert SameFrom(a, i + 1, b, j + 1);
      if IsSpace(a[i]) {
        SkipSpacesSuffix(a, i + 1, b, j + 1);
      }
    }
  }

  lemma {:induction false} WordEndSuffix(a: string, i: nat, b: string, j: nat)
    requires SameFrom(a, i, b, j)
    ensures WordEnd(a, i) - i == WordEnd(b, j) - j
    decreases |a| - i
  {
    if i < |a| {
      assert a[i] == b[j];
      assert SameFrom(a, i + 1, b, j + 1);
      if !IsSpace(a[i]) {
        WordEndSuffix(a, i + 1, b, j + 1);
      }
    }
  }

  lemma SameFromShift(a: string, i: nat, b: string, j: nat, d: nat)
    requires SameFrom(a, i, b, j) && i + d <= |a|
    ensures SameFrom(a, i + d, b, j + d)
  {
  }

  /** The words from an index depend only on the text from there on. */
  lemma {:induction false} WordsFromSuffix(a: string, i: nat, b: string, j: nat)
    requires SameFrom(a, i, b, j)
    ensures WordsFrom(a, i) == WordsFrom(b, j)
    decreases |a| - i
  {
    SkipSpacesSuffix(a, i, b, j);
    var p, q := SkipSpaces(a, i), SkipSpaces(b, j);
    if p < |a| {
      SameFromShift(a, i, b, j, p - i);
      WordEndSuffix(a, p, b, q);
      var e, f := WordEnd(a, p), WordEnd(b, q);
      assert a[p..e] == b[q..f] by {
        forall k | 0 <= k < e - p ensures a[p..e][k] == b[q..f][k] {
          assert a[p + k] == b[p + k - p + q];
        }
      }
      SameFromShift(a, p, b, q, e - p);
      WordsFromSuffix(a, e, b, f);
    }
  }

  lemma SameFromAppend(x: string, y: string)
    ensures SameFrom(x + y, |x|, y, 0)
  {
  }

  /** A word followed by nothing or by whitespace is the first word. */
  lemma WordPrefix(w: string, rest: string)
    requires IsWord(w) && (rest == [] || IsSpace(rest[0]))
    ensures var j := w + rest; SkipSpaces(j, 0) == 0 && WordEnd(j, 0) == |w| && j[0..|w|] == w
  {
    var j := w + rest;
    assert j[0] == w[0];
    assert forall k :: 0 <= k < |w| ==> j[k] == w[k];
    assert rest != [] ==> j[|w|] == rest[0];
  }

  lemma OneWord(w: string)
    requires IsWord(w)
    ensures Words(w) == [w]
  {
    WordPrefix(w, []);
    assert w + [] == w;
    assert WordsFrom(w, |w|) == [];
  }

  lemma WordThenSpace(w: string, tail: string)
    requires IsWord(w)
    ensures Words(w + " " + tail) == [w] + Words(tail)
  {
    var j := w + " " + tail;
    assert j == w + (" " + tail);
    WordPrefix(w, " " + tail);
    assert j[|w|] == ' ';
    assert WordsFrom(j, |w|) == WordsFrom(j, |w| + 1);
    assert j == (w + " ") + tail;
    SameFromAppend(w + " ", tail);
    WordsFromSuffix(j, |w| + 1, tail, 0);
  }

  /** `' '.join(s.split()).split() == s.split()`: re-splitting a space-joined word list is the identity. */
  lemma {:induction false} WordsOfJoin(ws: seq<string>)
    requires forall k :: 0 <= k < |ws| ==> IsWord(ws[k])
    ensures Words(Join(" ", ws)) == ws
  {
    if |ws| == 1 {
      OneWord(ws[0]);
    } else if |ws| > 1 {
      WordsOfJoin(ws[1..]);
      WordThenSpace(ws[0], Join(" ", ws[1..]));
    }
  }

  // ---------------------------------------------------------------------------
  // ASCII case mapping

  function LowerChar(c: char): char {
    if 'A' <= c <= 'Z' then (c as int + 32) as char else c
  }

  function UpperChar(c: char): char {
    if 'a' <= c <= 'z' then (c as int - 32) as char else c
  }

  /** `s.lower()` restricted to ASCII letters. */
  function Lower(s: string): (r: string)
    ensures |r| == |s| && forall i :: 0 <= i < |s| ==> r[i] == LowerChar(s[i])
  {
    seq(|s|, i requires 0 <= i < |s| => LowerChar(s[i]))
  }

  /** `s.upper()` restricted to ASCII letters. */
  function Upper(s: string): (r: string)
    ensures |r| == |s| && forall i :: 0 <= i < |s| ==> r[i] == UpperChar(s[i])
  {
    seq(|s|, i requires 0 <= i < |s| => UpperChar(s[i]))
  }

  // ---------------------------------------------------------------------------
  // substring search and replace

  /** `pat` occurs in `s` at index `i`. */
  predicate OccursAt(s: string, pat: string, i: nat) {
    i + |pat| <= |s| && s[i..i + |pat|] == pat
  }

  /** `s.find(pat, i)`: the first occurrence at or after `i`, if any. */
  function FindFrom(s: string, pat: string, i: nat): (r: Option<nat>)
    ensures r.Some? ==> i <= r.value && OccursAt(s, pat, r.value)
    ensures r.Some? ==> forall j :: i <= j < r.value ==> !OccursAt(s, pat, j)
    ensures r.None? ==> forall j :: i <= j ==> !OccursAt(s, pat, j)
    decreases |s| - i
  {
    if i + |pat| > |s| then None
    else if s[i..i + |pat|] == pat then Some(i)
    else FindFrom(s, pat, i + 1)
  }

  /** `sub in s`. */
  predicate Contains(s: string, sub: string) {
    FindFrom(s, sub, 0).Some?
  }

  /** `s.replace(pat, rep, 1)`: the first occurrence only. */
  function ReplaceFirst(s: string, pat: string, rep: string): (r: string)
    ensures FindFrom(s, pat, 0).None? ==> r == s
  {
    match FindFrom(s, pat, 0)
    case None => s
    case Some(k) => s[..k] + rep + s[k + |pat|..]
  }

  /**
   * `s.split(sep)` for a non-empty separator: the text between the
   * non-overlapping left-to-right occurrences of `sep`.
   */
  function SplitStr(s: string, sep: string): (r: seq<string>)
    requires sep != []
    ensures |r| >= 1
    decreases |s|
  {
    match FindFrom(s, sep, 0)
    case None => [s]
    case Some(k) => [s[..k]] + SplitStr(s[k + |sep|..], sep)
  }

  /** `s.replace(pat, rep)` for a non-empty `pat`: every non-overlapping occurrence, left to right. */
  function ReplaceAll(s: string, pat: string, rep: string): string
    requires pat != []
    decreases |s|
  {
    match FindFrom(s, pat, 0)
    case None => s
    case Some(k) => s[..k] + rep + ReplaceAll(s[k + |pat|..], pat, rep)
  }

  /** The text before the first occurrence of `pat` contains no occurrence of it. */
  lemma BeforeFirstOccurrence(s: string, pat: string, k: nat)
    requires pat != []
    requires FindFrom(s, pat, 0) == Some(k)
    ensures !Contains(s[..k], pat)
  {
    var head := s[..k];
    if FindFrom(head, pat, 0).Some? {
      var j := FindFrom(head, pat, 0).value;
      assert s[j..j + |pat|] == head[j..j + |pat|];
      assert OccursAt(s, pat, j);
    }
  }

  /** Joining the pieces of `s.split(sep)` with `sep` gives back `s`. */
  lemma {:induction false} SplitStrJoin(s: string, sep: string)
    requires sep != []
    ensures Join(sep, SplitStr(s, sep)) == s
    decreases |s|
  {
    var f := FindFrom(s, sep, 0);
    if f.Some? {
      var k := f.value;
      var head, rest := s[..k], s[k + |sep|..];
      SplitStrJoin(rest, sep);
      var tail := SplitStr(rest, sep);
      assert SplitStr(s, sep) == [head] + tail;
      JoinCons(sep, head, tail);
      assert s[k..k + |sep|] == sep;
      ThreeSlices(s, k, k + |sep|);
    }
  }

  lemma ThreeSlices(s: string, i: nat, j: nat)
    requires i <= j <= |s|
    ensures s == s[..i] + s[i..j] + s[j..]
  {
  }

  lemma SliceJoin(s: string, i: nat, j: nat, k: nat)
    requires i <= j <= k <= |s|
    ensures s[i..k] == s[i..j] + s[j..k]
  {
  }

  lemma JoinCons(sep: string, head: string, tail: seq<string>)
    requires tail != []
    ensures Join(sep, [head] + tail) == head + sep + Join(sep, tail)
  {
    assert ([head] + tail)[1..] == tail;
  }

  /** No piece of `s.split(sep)` contains `sep`. */
  lemma {:induction false} SplitStrPieces(s: string, sep: string)
    requires sep != []
    ensures forall k :: 0 <= k < |SplitStr(s, sep)| ==> !Contains(SplitStr(s, sep)[k], sep)
    decreases |s|
  {
    match FindFrom(s, sep, 0)
    case None =>
    case Some(k) =>
      var rest := s[k + |sep|..];
      SplitStrPieces(rest, sep);
      BeforeFirstOccurrence(s, sep, k);
      var tail := SplitStr(rest, sep);
      assert SplitStr(s, sep) == [s[..k]] + tail;
      assert forall i :: 1 <= i < |tail| + 1 ==> ([s[..k]] + tail)[i] == tail[i - 1];
  }

  /** `s.replace(pat, rep) == rep.join(s.split(pat))`. */
  lemma {:induction false} ReplaceAllJoin(s: string, pat: string, rep: string)
    requires pat != []
    ensures ReplaceAll(s, pat, rep) == Join(rep, SplitStr(s, pat))
    decreases |s|
  {
    match FindFrom(s, pat, 0)
    case None =>
    case Some(k) =>
      var rest := s[k + |pat|..];
      ReplaceAllJoin(rest, pat, rep);
      var tail := SplitStr(rest, pat);
      assert SplitStr(s, pat) == [s[..k]] + tail;
      assert ([s[..k]] + tail)[1..] == tail;
  }

  /**
   * What `replace` does, as Python documents it: `s` is its pieces joined by
   * `pat`, no piece contains `pat`, and the result joins the same pieces with `rep`.
   */
  lemma ReplaceAllSpec(s: string, pat: string, rep: string)
    requires pat != []
    ensures Join(pat, SplitStr(s, pat)) == s
    ensures forall k :: 0 <= k < |SplitStr(s, pat)| ==> !Contains(SplitStr(s, pat)[k], pat)
    ensures ReplaceAll(s, pat, rep) == Join(rep, SplitStr(s, pat))
  {
    SplitStrJoin(s, pat);
    SplitStrPieces(s, pat);
    ReplaceAllJoin(s, pat, rep);
  }

  /** Replacing every occurrence of a string by itself changes nothing. */
  lemma ReplaceAllSelf(s: string, pat: string)
    requires pat != []
    ensures ReplaceAll(s, pat, pat) == s
  {
    ReplaceAllSpec(s, pat, pat);
  }
}
