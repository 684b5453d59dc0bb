/**
 * The structure analyzer of the summarize-for-context agent: the file type
 * from the name and the first characters, the section breakdown of a
 * markdown file (by `#` headers), of a transcript (by `[S<n>]` cues) and of
 * a CSV file, and the size figures that decide on chunking.
 */
module Structure {
  import opened Wrappers
  import opened Strings
  import opened Lists
  import opened Scanning

  // ---------------------------------------------------------------------------
  // file type

  /**
   * `Path(name).suffix`: the text from the last dot, provided that dot is
   * neither the first nor the last character of the name; otherwise empty.
   */
  function Suffix(name: string): string {
    var after := AfterLast(name, '.');
    if '.' in name && after != [] && |after| + 1 < |name| then "." + after else ""
  }

  /**
   * A suffix is a dot and at least one character without a dot that end the
   * name, and there is one exactly when the name has a dot other than its
   * first and last characters and does not end with a dot.
   */
  lemma SuffixMeaning(name: string)
    ensures var r := Suffix(name);
      && (r != [] ==> |r| >= 2 && r[0] == '.' && '.' !in r[1..] && |r| < |name| && EndsWith(name, r))
      && (r != [] <==> |name| >= 2 && name[|name| - 1] != '.' && exists i :: 0 < i < |name| - 1 && name[i] == '.')
  {
    var after := AfterLast(name, '.');
    AfterLastFacts(name, '.');
    if '.' in name && after != [] && |after| + 1 < |name| {
      var i := |name| - |after| - 1;
      assert name[i] == '.';
      assert name[i..] == "." + after;
      assert name[|name| - 1] == after[|after| - 1];
    }
  }

  /** The end of the run of ASCII digits that starts at `i`. */
  function SkipDigits(s: string, i: nat): (j: nat)
    requires i <= |s|
    ensures i <= j <= |s|
    ensures forall k :: i <= k < j ==> IsDigit(s[k])
    ensures j == |s| || !IsDigit(s[j])
    decreases |s| - i
  {
    if i == |s| || !IsDigit(s[i]) then i else SkipDigits(s, i + 1)
  }

  /** The end of the run of copies of `c` that starts at `i`. */
  function SkipChar(s: string, i: nat, c: char): (j: nat)
    requires i <= |s|
    ensures i <= j <= |s|
    ensures forall k :: i <= k < j ==> s[k] == c
    ensures j == |s| || s[j] != c
    decreases |s| - i
  {
    if i == |s| || s[i] != c then i else SkipChar(s, i + 1, c)
  }

  /** The first position from `i` on that holds `c`, or the end of the text. */
  function SkipUntil(s: string, i: nat, c: char): (j: nat)
    requires i <= |s|
    ensures i <= j <= |s|
    ensures forall k :: i <= k < j ==> s[k] != c
    ensures j == |s| || s[j] == c
    decreases |s| - i
  {
    if i == |s| || s[i] == c then i else SkipUntil(s, i + 1, c)
  }

  /** The pattern `\[\s*S` matches at `i`. */
  predicate CueStartAt(s: string, i: nat) {
    i < |s| && s[i] == '['
    && var a := SkipSpaces(s, i + 1);
    a < |s| && s[a] == 'S'
  }

  /**
   * The pattern `\[\s*S\s*\d+` matches at `i`. A `\s*` is followed by a
   * character that is not whitespace, so its greedy run is the only one
   * that can succeed.
   */
  predicate MarkerAt(s: string, i: nat) {
    CueStartAt(s, i)
    && var b := SkipSpaces(s, SkipSpaces(s, i + 1) + 1);
    b < |s| && IsDigit(s[b])
  }

  /** `re.search(r'\[\s*S\s*\d+', s)` finds a match. */
  predicate HasMarker(s: string) {
    exists i | 0 <= i < |s| :: MarkerAt(s, i)
  }

  ghost predicate AllSpace(s: string, i: nat, j: nat) {
    forall k :: i <= k < j && k < |s| ==> IsSpace(s[k])
  }

  /** The marker pattern read with explicit positions: `[` at `i`, `S` at `a`, a digit at `b`, whitespace between. */
  ghost predicate MarkerSpelledAt(s: string, i: nat, a: nat, b: nat) {
    i < a < b < |s| && s[i] == '[' && AllSpace(s, i + 1, a) && s[a] == 'S' && AllSpace(s, a + 1, b) && IsDigit(s[b])
  }

  /**
   * The greedy reading of the marker pattern accepts exactly the texts in
   * which a bracket, any whitespace, an `S`, any whitespace and a digit
   * follow one another.
   */
  lemma MarkerAtMeaning(s: string, i: nat)
    ensures MarkerAt(s, i) <==> exists a, b :: MarkerSpelledAt(s, i, a, b)
  {
    if exists a, b :: MarkerSpelledAt(s, i, a, b) {
      var a, b :| MarkerSpelledAt(s, i, a, b);
      MarkerSpelledIsMarker(s, i, a, b);
    }
    if MarkerAt(s, i) {
      MarkerIsSpelled(s, i);
    }
  }

  lemma MarkerSpelledIsMarker(s: string, i: nat, a: nat, b: nat)
    requires MarkerSpelledAt(s, i, a, b)
    ensures MarkerAt(s, i)
  {
    SkipSpacesExact(s, i + 1, a);
    SkipSpacesExact(s, a + 1, b);
  }

  lemma MarkerIsSpelled(s: string, i: nat)
    requires MarkerAt(s, i)
    ensures var a := SkipSpaces(s, i + 1); MarkerSpelledAt(s, i, a, SkipSpaces(s, a + 1))
  {
  }

  /**
   * `detect_file_type`: by the lower-cased suffix; a markdown file is a
   * transcript when a speaker marker occurs in its first 2000 characters.
   * The header test of the source returns `markdown` either way.
   */
  function DetectFileType(content: string, name: string): (t: string)
    ensures t in {"csv", "transcript", "markdown", "text", "unknown"}
    ensures t == "csv" <==> Lower(Suffix(name)) == ".csv"
    ensures t == "transcript" <==> Lower(Suffix(name)) in {".md", ".markdown"} && HasMarker(First(content, 2000))
    ensures t == "markdown" <==> Lower(Suffix(name)) in {".md", ".markdown"} && !HasMarker(First(content, 2000))
    ensures t == "text" <==> Lower(Suffix(name)) == ".txt"
  {
    var ext := Lower(Suffix(name));
    if ext == ".csv" then "csv"
    else if ext in {".md", ".markdown"} then
      if HasMarker(First(content, 2000)) then "transcript" else "markdown"
    else if ext == ".txt" then "text"
    else "unknown"
  }

  /** Only the first 2000 characters of the content can change the file type. */
  lemma DetectFileTypeLooksAtPrefix(c1: string, c2: string, name: string)
    requires First(c1, 2000) == First(c2, 2000)
    ensures DetectFileType(c1, name) == DetectFileType(c2, name)
  {
  }

  // ---------------------------------------------------------------------------
  // markdown headers: `re.finditer(r'^(#{1,3})\s+(.+?)$', content, re.MULTILINE)`

  /** One header match: it starts at `start`, group 2 is `s[titleStart..end]`. */
  datatype Header = Header(start: nat, level: nat, titleStart: nat, end: nat)

  /** `^` under `re.MULTILINE`: the start of the text or just after a newline. */
  predicate LineStart(s: string, p: nat) {
    p == 0 || (0 < p <= |s| && s[p - 1] == '\n')
  }

  /** The last position from `lo` on that holds a character other than a newline. */
  function LastNonNewline(s: string, lo: nat): (r: Option<nat>)
    ensures r.Some? ==> lo <= r.value < |s| && s[r.value] != '\n'
    ensures r.Some? ==> forall y :: r.value < y < |s| ==> s[y] == '\n'
    ensures r.None? ==> forall y :: lo <= y < |s| ==> s[y] == '\n'
    decreases |s|
  {
    if |s| <= lo then None
    else if s[|s| - 1] != '\n' then Some(|s| - 1)
    else LastNonNewline(s[..|s| - 1], lo)
  }

  /**
   * The regular expression matches at `p` with `level` hashes, group 2
   * starting at `t` and the match ending at `e`: one to three hashes, at
   * least one whitespace character (newlines included), then at least one
   * character that is not a newline, up to the end of a line.
   */
  ghost predicate HeaderMatch(s: string, p: nat, level: nat, t: nat, e: nat) {
    && 1 <= level <= 3 && p + level < t < e <= |s|
    && (forall j :: p <= j < p + level ==> s[j] == '#')
    && (forall j :: p + level <= j < t ==> IsSpace(s[j]))
    && (forall j :: t <= j < e ==> s[j] != '\n')
    && (e == |s| || s[e] == '\n')
  }

  /**
   * What the backtracking matcher finds at `p` (the `^` test is apart): all
   * the hashes, which must be one to three and followed by whitespace; then
   * the whole whitespace run when text follows it, and otherwise the last
   * character of the run that is not a newline, as a one-character title.
   */
  function HeaderAt(s: string, p: nat): (r: Option<Header>)
    ensures r.Some? ==> r.value.start == p && 1 <= r.value.level <= 3
    ensures r.Some? ==> p + r.value.level < r.value.titleStart < r.value.end <= |s|
  {
    if p >= |s| then None
    else
      var afterHashes := SkipChar(s, p, '#');
      var level := afterHashes - p;
      if level < 1 || level > 3 || afterHashes == |s| || !IsSpace(s[afterHashes]) then None
      else
        var q := SkipSpaces(s, afterHashes);
        if q < |s| then Some(Header(p, level, q, SkipUntil(s, q, '\n')))
        else
          match LastNonNewline(s, afterHashes + 1)
          case None => None
          case Some(x) => Some(Header(p, level, x, x + 1))
  }

  /**
   * `HeaderAt` finds a match of the pattern exactly when there is one, and
   * the one it finds has the longest whitespace run, which is the one the
   * greedy `\s+` tries first.
   */
  lemma HeaderAtIsMatch(s: string, p: nat)
    ensures HeaderAt(s, p).Some? ==>
      var h := HeaderAt(s, p).value;
      && HeaderMatch(s, p, h.level, h.titleStart, h.end)
      && forall level: nat, t: nat, e: nat :: HeaderMatch(s, p, level, t, e) ==> level == h.level && t <= h.titleStart
    ensures (exists level: nat, t: nat, e: nat :: HeaderMatch(s, p, level, t, e)) ==> HeaderAt(s, p).Some?
  {
    if p < |s| {
      var afterHashes := SkipChar(s, p, '#');
      forall level: nat, t: nat, e: nat | HeaderMatch(s, p, level, t, e)
        ensures afterHashes == p + level && HeaderAt(s, p).Some? && t <= HeaderAt(s, p).value.titleStart
      {
        assert IsSpace(s[p + level]);
        assert afterHashes == p + level;
        var q := SkipSpaces(s, afterHashes);
        assert q >= t;
        if q == |s| {
          assert s[t] != '\n';
        }
      }
    }
  }

  /** A header match at `p`: the pattern matches there and `p` starts a line. */
  function HeaderAtLineStart(s: string, p: nat): (r: Option<Header>)
    ensures r.Some? ==> LineStart(s, p) && r == HeaderAt(s, p)
    ensures r.Some? ==> r.value.start == p && 1 <= r.value.level <= 3 && p < r.value.end <= |s|
  {
    if LineStart(s, p) then HeaderAt(s, p) else None
  }

  /** The header pattern under `re.MULTILINE`, tried at each position. */
  function HeaderMatcher(s: string): nat -> Option<Header> {
    (p: nat) => HeaderAtLineStart(s, p)
  }

  const HeaderStart := (h: Header) => h.start
  const HeaderEnd := (h: Header) => h.end

  lemma HeaderMatcherIsMatcher(s: string)
    ensures Matcher(HeaderMatcher(s), HeaderStart, HeaderEnd, |s|)
  {
  }

  /** `re.finditer(r'^(#{1,3})\s+(.+?)$', content, re.MULTILINE)`. */
  function Headers(s: string): (r: seq<Header>)
    ensures forall k :: 0 <= k < |r| ==> r[k].start < r[k].end <= |s|
    ensures forall k :: 0 < k < |r| ==> r[k - 1].end <= r[k].start
  {
    HeaderMatcherIsMatcher(s);
    FindAll(HeaderMatcher(s), HeaderStart, HeaderEnd, |s|, 0)
  }

  /** Every header found starts a line and is what the pattern matches there. */
  lemma HeadersSound(s: string)
    ensures forall k :: 0 <= k < |Headers(s)| ==> HeaderAtLineStart(s, Headers(s)[k].start) == Some(Headers(s)[k])
  {
    HeaderMatcherIsMatcher(s);
    FindAllSound(HeaderMatcher(s), HeaderStart, HeaderEnd, |s|, 0);
  }

  /** No header is skipped: a line start where the pattern matches lies inside a header found. */
  lemma HeadersComplete(s: string, p: nat)
    requires HeaderAtLineStart(s, p).Some?
    ensures exists k :: 0 <= k < |Headers(s)| && Headers(s)[k].start <= p < Headers(s)[k].end
  {
    HeaderMatcherIsMatcher(s);
    FindAllComplete(HeaderMatcher(s), HeaderStart, HeaderEnd, |s|, 0, p);
    var hs := Headers(s);
    var k :| 0 <= k < |hs| && HeaderStart(hs[k]) <= p < HeaderEnd(hs[k]);
    assert hs[k].start <= p < hs[k].end;
  }

  // ---------------------------------------------------------------------------
  // markdown sections

  /** One entry of the markdown section list. */
  datatype Section = Section(level: nat, title: string, wordCount: nat, preview: string)

  /** `s.replace('\n', ' ')`. */
  function NewlinesToSpaces(s: string): (r: string)
    ensures |r| == |s|
    ensures forall i :: 0 <= i < |s| ==> r[i] == if s[i] == '\n' then ' ' else s[i]
  {
    seq(|s|, i requires 0 <= i < |s| => if s[i] == '\n' then ' ' else s[i])
  }

  /** Where the text of header `i` ends: at the next header, or at the end. */
  function Stop(s: string, hs: seq<Header>, i: nat): nat
    requires i < |hs|
  {
    if i + 1 < |hs| then hs[i + 1].start else |s|
  }

  /** The section of header `h` whose text runs up to `stop`. */
  function MarkdownSection(s: string, h: Header, stop: nat): Section {
    var body := Strip(Slice(s, h.end, stop));
    Section(h.level, First(Strip(Slice(s, h.titleStart, h.end)), 80), |Words(body)|, NewlinesToSpaces(First(body, 150)))
  }

  /** Each header with the end of its text. */
  function Spans(s: string, hs: seq<Header>): (r: seq<(Header, nat)>)
    ensures |r| == |hs| && forall k :: 0 <= k < |hs| ==> r[k] == (hs[k], Stop(s, hs, k))
  {
    seq(|hs|, k requires 0 <= k < |hs| => (hs[k], Stop(s, hs, k)))
  }

  /** The loop body of `extract_sections_markdown`, as a function of the span. */
  function SectionOfSpan(s: string): ((Header, nat)) -> Section {
    (span: (Header, nat)) => MarkdownSection(s, span.0, span.1)
  }

  /** What `extract_sections_markdown` returns: one section per header, at most 30. */
  function MarkdownSections(s: string): seq<Section> {
    var hs := Headers(s);
    First(MapPrefix(SectionOfSpan(s), Spans(s, hs), |hs|), 30)
  }

  /** `extract_sections_markdown`. */
  method ExtractSectionsMarkdown(content: string) returns (sections: seq<Section>)
    ensures sections == MarkdownSections(content)
  {
    var matches := Headers(content);
    ghost var spans := Spans(content, matches);
    var all: seq<Section> := [];
    for i := 0 to |matches|
      invariant all == MapPrefix(SectionOfSpan(content), spans, i)
    {
      var stop := if i + 1 < |matches| then matches[i + 1].start else |content|;
      assert spans[i] == (matches[i], stop);
      all := all + [MarkdownSection(content, matches[i], stop)];
    }
    sections := First(all, 30);
  }

  /** The title of a section is stripped and at most 80 characters; its preview has no newline. */
  lemma MarkdownSectionFacts(s: string, h: Header, stop: nat)
    ensures var sec := MarkdownSection(s, h, stop);
      && sec.level == h.level
      && |sec.title| <= 80 && (sec.title == [] || !IsSpace(sec.title[0]))
      && |sec.preview| <= 150 && '\n' !in sec.preview
  {
    var sec := MarkdownSection(s, h, stop);
    var title := Strip(Slice(s, h.titleStart, h.end));
    StripSpec(Slice(s, h.titleStart, h.end));
    assert sec.title == First(title, 80);
    var p := sec.preview;
    assert forall i :: 0 <= i < |p| ==> p[i] != '\n';
  }

  /**
   * There are as many sections as headers, up to 30; each has the level of
   * its header (one to three), a stripped title of at most 80 characters,
   * and a preview of at most 150 characters without newlines. The text of a
   * section lies between the end of its header and the start of the next one.
   */
  lemma MarkdownSectionsFacts(s: string)
    ensures var r := MarkdownSections(s); var hs := Headers(s);
      && |r| == (if |hs| <= 30 then |hs| else 30)
      && (forall k :: 0 <= k < |r| ==> r[k] == MarkdownSection(s, hs[k], Stop(s, hs, k)))
      && (forall k :: 0 <= k < |r| ==> r[k].level == hs[k].level && 1 <= r[k].level <= 3)
      && (forall k :: 0 <= k < |r| ==> |r[k].title| <= 80 && (r[k].title == [] || !IsSpace(r[k].title[0])))
      && (forall k :: 0 <= k < |r| ==> |r[k].preview| <= 150 && '\n' !in r[k].preview)
      && (forall k :: 0 <= k < |r| ==> hs[k].end <= Stop(s, hs, k) <= |s|)
  {
    var hs := Headers(s);
    var r := MarkdownSections(s);
    forall k | 0 <= k < |r|
      ensures r[k] == MarkdownSection(s, hs[k], Stop(s, hs, k))
      ensures r[k].level == hs[k].level && 1 <= r[k].level <= 3
      ensures |r[k].title| <= 80 && (r[k].title == [] || !IsSpace(r[k].title[0]))
      ensures |r[k].preview| <= 150 && '\n' !in r[k].preview
    {
      MarkdownSectionsEntry(s, k);
    }
  }

  /** Entry `k` of the markdown section list, as `MarkdownSectionsFacts` describes it. */
  lemma MarkdownSectionsEntry(s: string, k: nat)
    requires k < |MarkdownSections(s)|
    ensures var r := MarkdownSections(s); var hs := Headers(s);
      && k < |hs|
      && r[k] == MarkdownSection(s, hs[k], Stop(s, hs, k))
      && r[k].level == hs[k].level && 1 <= r[k].level <= 3
      && |r[k].title| <= 80 && (r[k].title == [] || !IsSpace(r[k].title[0]))
      && |r[k].preview| <= 150 && '\n' !in r[k].preview
  {
    var hs := Headers(s);
    MapPrefixAt(SectionOfSpan(s), Spans(s, hs), |hs|, k);
    HeadersSound(s);
    assert HeaderAtLineStart(s, hs[k].start) == Some(hs[k]);
    MarkdownSectionFacts(s, hs[k], Stop(s, hs, k));
  }

  // ---------------------------------------------------------------------------
  // transcript cues:
  // `re.findall(r'\[\s*S\s*(\d+)[^\]]*\]\s*([^\[]+?)(?=\[\s*S|\Z)', content, re.DOTALL)`

  /** One match: group 1 is `number`, group 2 is `body`, the match is `s[start..end]`. */
  datatype Cue = Cue(start: nat, number: string, body: string, end: nat)

  /** The lookahead `(?=\[\s*S|\Z)` holds at `f`. */
  predicate CueLookahead(s: string, f: nat) {
    f == |s| || CueStartAt(s, f)
  }

  /**
   * The first part of the pattern, `\[\s*S\s*(\d+)`, at `p`: the span of
   * the digits of group 1.
   */
  function CueNumber(s: string, p: nat): (r: Option<(nat, nat)>)
    ensures r.Some? ==> p < r.value.0 < r.value.1 <= |s| && MarkerAt(s, p)
    ensures r.Some? ==> forall i :: r.value.0 <= i < r.value.1 ==> IsDigit(s[i])
  {
    if p >= |s| || s[p] != '[' then None
    else
      var a := SkipSpaces(s, p + 1);
      if a == |s| || s[a] != 'S' then None
      else
        var b := SkipSpaces(s, a + 1);
        var d := SkipDigits(s, b);
        if d == b then None else Some((b, d))
  }

  /**
   * The rest of the pattern, `[^\]]*\]\s*([^\[]+?)(?=\[\s*S|\Z)`, after
   * the digits that end at `d`: everything up to the first `]`; the
   * whitespace after it; and the text up to the next `[`, which must start a
   * cue or be the end of the text. The result is the span of group 2. When
   * no text precedes that `[`, the last whitespace character given back by
   * `\s*` is the whole of group 2.
   */
  function CueBody(s: string, d: nat): (r: Option<(nat, nat)>)
    requires d <= |s|
    ensures r.Some? ==> d < r.value.0 < r.value.1 <= |s| && CueLookahead(s, r.value.1)
    ensures r.Some? ==> forall i :: r.value.0 <= i < r.value.1 ==> s[i] != '['
  {
    var c := SkipUntil(s, d, ']');
    if c == |s| then None
    else
      var w := SkipSpaces(s, c + 1);
      var f := SkipUntil(s, w, '[');
      if (f == w && w == c + 1) || !CueLookahead(s, f) then None
      else Some((if f > w then w else w - 1, f))
  }

  /** What the backtracking matcher finds at `p`. */
  function CueAt(s: string, p: nat): (r: Option<Cue>)
    ensures r.Some? ==> r.value.start == p && p < r.value.end <= |s|
  {
    match CueNumber(s, p)
    case None => None
    case Some((b, d)) =>
      match CueBody(s, d)
      case None => None
      case Some((u, f)) => Some(Cue(p, s[b..d], s[u..f], f))
  }

  /**
   * A cue starts with a speaker marker, its number is a non-empty run of
   * digits, its text is non-empty, free of `[` and ends the match, and the
   * match ends where another cue starts or at the end of the text.
   */
  lemma CueAtFacts(s: string, p: nat)
    requires CueAt(s, p).Some?
    ensures var c := CueAt(s, p).value;
      && MarkerAt(s, p) && CueLookahead(s, c.end)
      && c.number != [] && (forall i :: 0 <= i < |c.number| ==> IsDigit(c.number[i]))
      && c.body != [] && '[' !in c.body
      && |c.body| <= c.end && c.body == s[c.end - |c.body|..c.end]
  {
    var (b, d) := CueNumber(s, p).value;
    var (u, f) := CueBody(s, d).value;
    var c := CueAt(s, p).value;
    assert c.number == s[b..d] && c.body == s[u..f] && c.end == f;
    DigitsSlice(s, b, d);
    NoBracketSlice(s, u, f);
  }

  lemma DigitsSlice(s: string, b: nat, d: nat)
    requires b <= d <= |s| && forall i :: b <= i < d ==> IsDigit(s[i])
    ensures forall i :: 0 <= i < d - b ==> IsDigit(s[b..d][i])
  {
    assert forall i :: 0 <= i < d - b ==> s[b..d][i] == s[b + i];
  }

  lemma NoBracketSlice(s: string, u: nat, f: nat)
    requires u <= f <= |s| && forall i :: u <= i < f ==> s[i] != '['
    ensures '[' !in s[u..f]
  {
    assert forall i :: 0 <= i < f - u ==> s[u..f][i] == s[u + i];
  }

  /** The cue pattern, tried at each position. */
  function CueMatcher(s: string): nat -> Option<Cue> {
    (p: nat) => CueAt(s, p)
  }

  const CueStart := (c: Cue) => c.start
  const CueEnd := (c: Cue) => c.end

  lemma CueMatcherIsMatcher(s: string)
    ensures Matcher(CueMatcher(s), CueStart, CueEnd, |s|)
  {
  }

  /** The matches of `re.findall` over the whole text. */
  function Cues(s: string): (r: seq<Cue>)
    ensures forall k :: 0 <= k < |r| ==> r[k].start < r[k].end <= |s|
    ensures forall k :: 0 < k < |r| ==> r[k - 1].end <= r[k].start
  {
    CueMatcherIsMatcher(s);
    FindAll(CueMatcher(s), CueStart, CueEnd, |s|, 0)
  }

  /** Every cue found is what the pattern matches at its start. */
  lemma CuesSound(s: string)
    ensures forall k :: 0 <= k < |Cues(s)| ==> CueAt(s, Cues(s)[k].start) == Some(Cues(s)[k])
  {
    CueMatcherIsMatcher(s);
    FindAllSound(CueMatcher(s), CueStart, CueEnd, |s|, 0);
  }

  /** No cue is skipped: a position where the pattern matches lies inside a cue found. */
  lemma CuesComplete(s: string, p: nat)
    requires CueAt(s, p).Some?
    ensures exists k :: 0 <= k < |Cues(s)| && Cues(s)[k].start <= p < Cues(s)[k].end
  {
    CueMatcherIsMatcher(s);
    FindAllComplete(CueMatcher(s), CueStart, CueEnd, |s|, 0, p);
    var cs := Cues(s);
    var k :| 0 <= k < |cs| && CueStart(cs[k]) <= p < CueEnd(cs[k]);
    assert cs[k].start <= p < cs[k].end;
  }

  /** One entry of the transcript section list. */
  datatype TranscriptSection = TranscriptSection(number: nat, title: string, wordCount: nat, preview: string)

  /** The loop body of `extract_sections_transcript` for one cue. */
  function CueSection(c: Cue): TranscriptSection
  {
    var cleaned := Join(" ", Words(c.body));
    var words := Words(cleaned);
    var title := if words != [] then Join(" ", First(words, 10)) else "";
    TranscriptSection(DigitsValue(c.number), First(title, 80), |words|, First(Join(" ", First(words, 25)), 150))
  }

  /** What `extract_sections_transcript` returns: one section per cue, for the first 30 cues. */
  function TranscriptSections(s: string): seq<TranscriptSection> {
    var cs := First(Cues(s), 30);
    MapPrefix(CueSection, cs, |cs|)
  }

  /**
   * The most digits `int()` converts: CPython's default limit on integer
   * string conversion (`sys.get_int_max_str_digits()`, from Python 3.11 on).
   */
  const IntMaxStrDigits: nat := 4300

  /** The exception `int()` raises on a number longer than the limit. */
  const ValueError := "ValueError"

  /** `int(num)` raises for this cue: its number has more digits than the limit. */
  predicate NumberTooLong(c: Cue) {
    |c.number| > IntMaxStrDigits
  }

  /** Some cue of `cs` has a number that `int()` rejects. */
  predicate SomeNumberTooLong(cs: seq<Cue>) {
    exists k :: 0 <= k < |cs| && NumberTooLong(cs[k])
  }

  /** Some of the first 30 cues has a number that `int()` rejects. */
  predicate TranscriptRaises(s: string) {
    SomeNumberTooLong(First(Cues(s), 30))
  }

  /**
   * `extract_sections_transcript`: the sections of the first 30 cues, or the
   * `ValueError` of `int(num)` when one of their numbers is too long.
   */
  method ExtractSectionsTranscript(content: string) returns (r: Outcome<seq<TranscriptSection>>)
    ensures r.Raised? <==> TranscriptRaises(content)
    ensures r.Raised? ==> r.exception == ValueError
    ensures r.Returned? ==> r.value == TranscriptSections(content)
  {
    var matches := First(Cues(content), 30);
    var sections := [];
    for i := 0 to |matches|
      invariant sections == MapPrefix(CueSection, matches, i)
      invariant !SomeNumberTooLong(matches[..i])
    {
      if NumberTooLong(matches[i]) {
        assert matches[..i + 1][i] == matches[i];
        return Raised(ValueError);
      }
      NoneTooLongSnoc(matches, i);
      sections := sections + [CueSection(matches[i])];
    }
    assert matches[..|matches|] == matches;
    return Returned(sections);
  }

  /** A prefix free of over-long numbers stays so when the next cue's number fits. */
  lemma NoneTooLongSnoc(cs: seq<Cue>, i: nat)
    requires i < |cs| && !SomeNumberTooLong(cs[..i]) && !NumberTooLong(cs[i])
    ensures !SomeNumberTooLong(cs[..i + 1])
  {
    var p, q := cs[..i + 1], cs[..i];
    forall k | 0 <= k < |p|
      ensures !NumberTooLong(p[k])
    {
      if k < i {
        assert p[k] == q[k];
      }
    }
  }

  /** `sep.join(xs[:k])` is a prefix of `sep.join(xs)`. */
  lemma {:induction false} JoinFirst(sep: string, xs: seq<string>, k: nat)
    ensures StartsWith(Join(sep, xs), Join(sep, First(xs, k)))
  {
    if k == 0 || |xs| <= 1 || k >= |xs| {
      assert First(xs, k) == [] || First(xs, k) == xs;
    } else if k == 1 {
      assert First(xs, k) == [xs[0]];
    } else {
      var head, tail := xs[0], xs[1..];
      var shorter := First(tail, k - 1);
      assert First(xs, k) == [head] + shorter;
      assert xs == [head] + tail;
      JoinFirst(sep, tail, k - 1);
      JoinCons(sep, head, shorter);
      JoinCons(sep, head, tail);
      StartsWithAfter(head + sep, Join(sep, tail), Join(sep, shorter));
    }
  }

  lemma StartsWithAfter(p: string, s: string, t: string)
    requires StartsWith(s, t)
    ensures StartsWith(p + s, p + t)
  {
    assert (p + s)[..|p + t|] == p + s[..|t|];
  }

  /**
   * A transcript section carries the decimal value of its cue's number and
   * counts the words of its cue's text. Its title is the first 10 words and
   * its preview the first 25, joined by single spaces, each cut to 80 and 150
   * characters; uncut, their words are exactly those words. The title is the
   * start of the preview.
   */
  lemma CueSectionFacts(c: Cue)
    ensures var t := CueSection(c); var ws := Words(c.body);
      && t.number == DigitsValue(c.number)
      && t.wordCount == |ws|
      && t.title == First(Join(" ", First(ws, 10)), 80)
      && t.preview == First(Join(" ", First(ws, 25)), 150)
      && (|Join(" ", First(ws, 10))| <= 80 ==> Words(t.title) == First(ws, 10))
      && (|Join(" ", First(ws, 25))| <= 150 ==> Words(t.preview) == First(ws, 25))
      && |t.title| <= 80 && |t.preview| <= 150
      && StartsWith(t.preview, t.title)
  {
    var ws := Words(c.body);
    WordsOfFirst(ws, 10);
    WordsOfFirst(ws, 25);
    WordsOfJoin(ws);
    assert Words(Join(" ", ws)) == ws;
    var j10, j25 := Join(" ", First(ws, 10)), Join(" ", First(ws, 25));
    JoinFirst(" ", First(ws, 25), 10);
    assert First(First(ws, 25), 10) == First(ws, 10);
    var title := if ws != [] then j10 else "";
    assert StartsWith(j25, title);
    var t := CueSection(c);
    assert t.title == First(title, 80) && t.preview == First(j25, 150);
    FirstPrefix(j25, title, 150, 80);
    if |j10| <= 80 {
      assert t.title == j10;
    }
    if |j25| <= 150 {
      assert t.preview == j25;
    }
  }

  /** Joining the first `n` of some words by spaces and splitting again gives those words back. */
  lemma WordsOfFirst(ws: seq<string>, n: nat)
    requires forall k :: 0 <= k < |ws| ==> IsWord(ws[k])
    ensures Words(Join(" ", First(ws, n))) == First(ws, n)
  {
    var f := First(ws, n);
    assert forall k :: 0 <= k < |f| ==> f[k] == ws[k];
    WordsOfJoin(f);
  }

  /** Cutting a text and one of its prefixes to lengths `n >= m` keeps the prefix relation. */
  lemma FirstPrefix(s: string, p: string, n: nat, m: nat)
    requires StartsWith(s, p) && m <= n
    ensures StartsWith(First(s, n), First(p, m))
  {
    var tp := First(p, m);
    assert forall i :: 0 <= i < |tp| ==> tp[i] == p[i] == s[i];
  }

  /** At most 30 transcript sections, each as `CueSectionFacts` describes. */
  lemma TranscriptSectionsFacts(s: string)
    ensures var r := TranscriptSections(s); var cs := Cues(s);
      && |r| <= 30 && |r| <= |cs|
      && forall k :: 0 <= k < |r| ==>
           r[k].wordCount == |Words(cs[k].body)| && |r[k].title| <= 80 && |r[k].preview| <= 150
           && StartsWith(r[k].preview, r[k].title)
  {
    var cs := Cues(s);
    CuesSound(s);
    forall k | 0 <= k < |TranscriptSections(s)|
      ensures TranscriptSections(s)[k] == CueSection(cs[k])
    {
      MapPrefixAt(CueSection, First(cs, 30), |First(cs, 30)|, k);
    }
    forall k | 0 <= k < |TranscriptSections(s)| ensures
      var t := CueSection(cs[k]);
      t.wordCount == |Words(cs[k].body)| && |t.title| <= 80 && |t.preview| <= 150 && StartsWith(t.preview, t.title)
    {
      CueSectionFacts(cs[k]);
    }
  }

  // ---------------------------------------------------------------------------
  // CSV

  /** The one record `extract_sections_csv` returns. */
  datatype CsvSummary = CsvSummary(columns: seq<string>, rowCount: int, preview: string)

  /** `[c.strip() for c in parts]`. */
  function StripAll(parts: seq<string>): (r: seq<string>)
    ensures |r| == |parts| && forall k :: 0 <= k < |parts| ==> r[k] == Strip(parts[k])
  {
    seq(|parts|, k requires 0 <= k < |parts| => Strip(parts[k]))
  }

  /** `extract_sections_csv`; `split` never returns an empty list, so its empty-list branch is dead. */
  function CsvSections(content: string): seq<CsvSummary> {
    var lines := SplitOn(Strip(content), '\n');
    var columns := StripAll(SplitOn(lines[0], ','));
    [CsvSummary(First(columns, 10), |lines| - 1, Join("\n", First(lines, 3)))]
  }

  /**
   * One record: between one and ten stripped column names from the first
   * line, one row per newline of the stripped text, and a preview that is
   * the start of the stripped text.
   */
  lemma CsvSectionsFacts(content: string)
    ensures var r := CsvSections(content); var t := Strip(content);
      && |r| == 1
      && 1 <= |r[0].columns| <= 10
      && (forall k :: 0 <= k < |r[0].columns| ==> r[0].columns[k] == Strip(SplitOn(SplitOn(t, '\n')[0], ',')[k]))
      && r[0].rowCount == Count(t, '\n')
      && StartsWith(t, r[0].preview)
  {
    var t := Strip(content);
    var lines := SplitOn(t, '\n');
    SplitOnLength(t, '\n');
    SplitOnJoin(t, '\n');
    JoinFirst("\n", lines, 3);
  }

  // ---------------------------------------------------------------------------
  // analyze_file

  /** The section list, whose shape depends on the file type. */
  datatype Sections = MarkdownList(markdown: seq<Section>) | TranscriptList(transcript: seq<TranscriptSection>) | CsvList(csv: seq<CsvSummary>)

  /** The result of `analyze_file` without the file name and path. */
  datatype Analysis = Analysis(kind: string, lines: nat, words: nat, estimatedTokens: nat, sections: Sections, needsChunking: bool, chunkCount: nat)

  const ChunkLines: nat := 1950
  const ChunkingThreshold: nat := 2000

  /** `max(1, (lines + 1949) // 1950)`. */
  function ChunkCount(lines: nat): (n: nat)
    ensures n >= 1
    ensures lines >= 1 ==> (n - 1) * ChunkLines < lines <= n * ChunkLines
  {
    var c := (lines + ChunkLines - 1) / ChunkLines;
    if c < 1 then 1 else c
  }

  /** `int(words * 100 / 75)`, read as exact division. */
  function EstimatedTokens(words: nat): (t: nat)
    ensures 3 * t <= 4 * words < 3 * t + 3
  {
    words * 100 / 75
  }

  /**
   * `analyze_file` on the text of a file named `name`: an error for a text
   * that is only whitespace; the uncaught `ValueError` of a transcript cue
   * number that is too long; otherwise the counts and the sections for the
   * detected type (text and unknown files are split like markdown).
   */
  method AnalyzeFile(content: string, name: string) returns (outcome: Outcome<Result<Analysis>>)
    ensures outcome.Raised? <==>
      Strip(content) != [] && DetectFileType(content, name) == "transcript" && TranscriptRaises(content)
    ensures outcome.Raised? ==> outcome.exception == ValueError
    ensures outcome.Returned? ==> (outcome.value.Err? <==> Strip(content) == [])
    ensures outcome.Returned? && outcome.value.Err? ==> outcome.value.message == "Empty file, no content to summarize"
    ensures outcome.Returned? && outcome.value.Ok? ==> var a := outcome.value.value;
      && a.kind == DetectFileType(content, name)
      && a.lines == Count(content, '\n') + 1 && a.words == |Words(content)|
      && a.estimatedTokens == EstimatedTokens(a.words)
      && (a.needsChunking <==> a.lines > ChunkingThreshold)
      && (a.needsChunking ==> a.chunkCount >= 2)
      && (a.chunkCount - 1) * ChunkLines < a.lines <= a.chunkCount * ChunkLines
      && (a.kind == "transcript" ==> a.sections == TranscriptList(TranscriptSections(content)))
      && (a.kind == "csv" ==> a.sections == CsvList(CsvSections(content)))
      && (a.kind !in {"transcript", "csv"} ==> a.sections == MarkdownList(MarkdownSections(content)))
  {
    if Strip(content) == [] {
      return Returned(Err("Empty file, no content to summarize"));
    }
    var lines := |SplitOn(content, '\n')|;
    SplitOnLength(content, '\n');
    var words := |Words(content)|;
    var kind := DetectFileType(content, name);
    var sections;
    if kind == "transcript" {
      var ts := ExtractSectionsTranscript(content);
      if ts.Raised? {
        return Raised(ts.exception);
      }
      sections := TranscriptList(ts.value);
    } else if kind == "csv" {
      sections := CsvList(CsvSections(content));
    } else {
      var ms := ExtractSectionsMarkdown(content);
      sections := MarkdownList(ms);
    }
    outcome := Returned(Ok(Analysis(kind, lines, words, EstimatedTokens(words), sections, lines > ChunkingThreshold, ChunkCount(lines))));
  }
}
