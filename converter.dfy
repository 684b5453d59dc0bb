/**
 * The text handling of the Markdown-to-PDF converter: pulling the Mermaid
 * blocks out of the Markdown behind numbered placeholders, putting the
 * rendered diagrams back in, and the environment the renderer runs in.
 * Markdown conversion, the renderer and the PDF writer are not modelled;
 * their outputs are inputs here.
 */
module Converter {
  import opened Wrappers
  import opened Strings
  import opened Scanning
  import opened Lists

  // ---------------------------------------------------------------------------
  // finding the blocks: `re.findall(r'```mermaid\n(.*?)```', md, re.DOTALL)`

  const Opener := "```mermaid\n"
  const Fence := "```"

  /** One match of the pattern: where it starts, the captured block, where it ends. */
  datatype MermaidMatch = MermaidMatch(start: nat, block: string, end: nat)

  /**
   * The match the pattern makes at `p`: the opener, then the shortest text
   * up to the next fence (`.*?`, with `.` matching newlines too), then that fence.
   */
  function MermaidAt(s: string, p: nat): (r: Option<MermaidMatch>)
    ensures r.Some? ==> r.value.start == p < r.value.end <= |s|
  {
    if !OccursAt(s, Opener, p) then None
    else match FindFrom(s, Fence, p + |Opener|)
      case None => None
      case Some(q) => Some(MermaidMatch(p, s[p + |Opener|..q], q + |Fence|))
  }

  function MermaidMatcher(s: string): nat -> Option<MermaidMatch> {
    (p: nat) => MermaidAt(s, p)
  }

  const MatchStart := (m: MermaidMatch) => m.start
  const MatchEnd := (m: MermaidMatch) => m.end

  lemma MermaidMatcherIsMatcher(s: string)
    ensures Matcher(MermaidMatcher(s), MatchStart, MatchEnd, |s|)
  {
  }

  /** The matches of the pattern in `s`, left to right and without overlaps. */
  function MermaidMatches(s: string): (r: seq<MermaidMatch>)
    ensures forall k :: 0 <= k < |r| ==> r[k].start < r[k].end <= |s|
    ensures forall k :: 0 < k < |r| ==> r[k - 1].end <= r[k].start
  {
    MermaidMatcherIsMatcher(s);
    var r := FindAll(MermaidMatcher(s), MatchStart, MatchEnd, |s|, 0);
    assert forall k :: 0 <= k < |r| ==> MatchStart(r[k]) == r[k].start && MatchEnd(r[k]) == r[k].end;
    r
  }

  /** The captured blocks, which is what `re.findall` returns for a pattern with one group. */
  function Blocks(s: string): (bs: seq<string>)
    ensures |bs| == |MermaidMatches(s)|
    ensures forall k :: 0 <= k < |bs| ==> bs[k] == MermaidMatches(s)[k].block
  {
    var ms := MermaidMatches(s);
    seq(|ms|, k requires 0 <= k < |ms| => ms[k].block)
  }

  /** The text the substitution loop looks for: the block back inside its fences. */
  function Fenced(block: string): string {
    Opener + block + Fence
  }

  /** If `pat` never occurs in `s` from `lo` up to `hi`, it does not occur in `s[lo..hi]`. */
  lemma NotInSlice(s: string, pat: string, lo: nat, hi: nat)
    requires pat != [] && lo <= hi <= |s|
    requires forall j :: lo <= j < hi ==> !OccursAt(s, pat, j)
    ensures !Contains(s[lo..hi], pat)
  {
    var b := s[lo..hi];
    forall j: nat ensures !OccursAt(b, pat, j) {
      if j + |pat| <= |b| {
        SliceOfSlice(s, lo, hi, j, |pat|);
        assert !OccursAt(s, pat, lo + j);
      }
    }
  }

  lemma SliceOfSlice(s: string, lo: nat, hi: nat, j: nat, n: nat)
    requires lo <= hi <= |s| && j + n <= hi - lo
    ensures s[lo..hi][j..j + n] == s[lo + j..lo + j + n]
  {
    var b := s[lo..hi];
    var w, v := b[j..j + n], s[lo + j..lo + j + n];
    forall t | 0 <= t < n ensures w[t] == v[t] {
      assert w[t] == b[j + t];
    }
  }

  /**
   * A match at `p` is an opener at `p`, a block without a fence in it and a
   * closing fence, and its whole text is the block in its fences.
   */
  lemma MermaidAtFacts(s: string, p: nat)
    requires MermaidAt(s, p).Some?
    ensures var m := MermaidAt(s, p).value;
      && OccursAt(s, Opener, p)
      && m.end == p + |Fenced(m.block)|
      && OccursAt(s, Fenced(m.block), p)
      && !Contains(m.block, Fence)
  {
    var q := FindFrom(s, Fence, p + |Opener|).value;
    var m := MermaidAt(s, p).value;
    NotInSlice(s, Fence, p + |Opener|, q);
    SliceJoin(s, p, p + |Opener|, q);
    SliceJoin(s, p, q, q + |Fence|);
  }

  /**
   * Every block found is the text between an opener and the first fence
   * after it, contains no fence, and its fenced text occurs in the Markdown
   * where its match starts.
   */
  lemma BlocksSound(s: string)
    ensures var ms := MermaidMatches(s);
      forall k :: 0 <= k < |ms| ==>
        && OccursAt(s, Fenced(ms[k].block), ms[k].start)
        && ms[k].end == ms[k].start + |Fenced(ms[k].block)|
        && !Contains(ms[k].block, Fence)
  {
    var ms := MermaidMatches(s);
    MermaidMatcherIsMatcher(s);
    FindAllSound(MermaidMatcher(s), MatchStart, MatchEnd, |s|, 0);
    forall k | 0 <= k < |ms|
      ensures OccursAt(s, Fenced(ms[k].block), ms[k].start)
      ensures ms[k].end == ms[k].start + |Fenced(ms[k].block)|
      ensures !Contains(ms[k].block, Fence)
    {
      assert MermaidAt(s, ms[k].start) == Some(ms[k]);
      MermaidAtFacts(s, ms[k].start);
    }
  }

  /** No opener where the pattern matches is skipped: it lies inside some match found. */
  lemma BlocksComplete(s: string, p: nat)
    requires MermaidAt(s, p).Some?
    ensures exists k :: 0 <= k < |MermaidMatches(s)| && MermaidMatches(s)[k].start <= p < MermaidMatches(s)[k].end
  {
    var ms := MermaidMatches(s);
    MermaidMatcherIsMatcher(s);
    FindAllComplete(MermaidMatcher(s), MatchStart, MatchEnd, |s|, 0, p);
    var k :| 0 <= k < |ms| && MatchStart(ms[k]) <= p < MatchEnd(ms[k]);
  }

  /** Without an opener in the Markdown there are no blocks. */
  lemma NoOpenerNoBlocks(s: string)
    requires !Contains(s, Opener)
    ensures Blocks(s) == []
  {
    MermaidMatcherIsMatcher(s);
    FindAllNone(MermaidMatcher(s), MatchStart, MatchEnd, |s|, 0);
  }

  // ---------------------------------------------------------------------------
  // placeholders

  const PlaceholderHead := "<div class=\"mermaid-diagram\" id=\"mermaid-"
  const PlaceholderTail := "\"></div>"

  /** The placeholder of block `i`. */
  function Placeholder(i: nat): (r: string)
    ensures StartsWith(r, PlaceholderHead) && EndsWith(r, PlaceholderTail)
  {
    PlaceholderHead + Decimal(i) + PlaceholderTail
  }

  /** Different blocks get different placeholders. */
  lemma PlaceholderInjective(i: nat, j: nat)
    requires Placeholder(i) == Placeholder(j)
    ensures i == j
  {
    var a, b := Placeholder(i), Placeholder(j);
    assert a[|PlaceholderHead|..|a| - |PlaceholderTail|] == Decimal(i);
    assert b[|PlaceholderHead|..|b| - |PlaceholderTail|] == Decimal(j);
    DecimalValue(i);
    DecimalValue(j);
  }

  /**
   * `s.replace(pat, rep, 1)` replaces the first occurrence and nothing
   * else: the text before it has no occurrence and the text after it is kept.
   */
  lemma ReplaceFirstSpec(s: string, pat: string, rep: string)
    requires pat != []
    ensures !Contains(s, pat) ==> ReplaceFirst(s, pat, rep) == s
    ensures Contains(s, pat) ==>
      var k := FindFrom(s, pat, 0).value;
      && OccursAt(s, pat, k) && !Contains(s[..k], pat)
      && ReplaceFirst(s, pat, rep) == s[..k] + rep + s[k + |pat|..]
  {
    if Contains(s, pat) {
      BeforeFirstOccurrence(s, pat, FindFrom(s, pat, 0).value);
    }
  }

  /** The Markdown after the first `n` passes of the substitution loop. */
  function Placeholders(md: string, blocks: seq<string>, n: nat): string
    requires n <= |blocks|
  {
    if n == 0 then md
    else ReplaceFirst(Placeholders(md, blocks, n - 1), Fenced(blocks[n - 1]), Placeholder(n - 1))
  }

  /**
   * `extract_mermaid_blocks`: the blocks, and the Markdown in which the first
   * remaining occurrence of each fenced block, in order, is replaced by its
   * numbered placeholder.
   */
  method ExtractMermaidBlocks(md: string) returns (placeholderMd: string, blocks: seq<string>)
    ensures blocks == Blocks(md)
    ensures placeholderMd == Placeholders(md, blocks, |blocks|)
    ensures !Contains(md, Opener) ==> blocks == [] && placeholderMd == md
  {
    if !Contains(md, Opener) {
      NoOpenerNoBlocks(md);
    }
    blocks := Blocks(md);
    placeholderMd := md;
    for i := 0 to |blocks|
      invariant placeholderMd == Placeholders(md, blocks, i)
    {
      placeholderMd := ReplaceFirst(placeholderMd, Fenced(blocks[i]), Placeholder(i));
    }
  }

  // ---------------------------------------------------------------------------
  // rendering and re-insertion

  /** What rendering one block gives: the base64 PNG, or one of the two failures. */
  datatype RenderOutcome = Rendered(base64: string) | ProcessError(message: string) | MmdcNotFound

  /** The HTML that stands for one rendered block. */
  function DiagramHtml(o: RenderOutcome): string {
    match o
    case Rendered(b64) =>
      "<img src=\"data:image/png;base64," + b64 + "\" style=\"max-width:100%; max-height:220mm; object-fit:contain;\" />"
    case ProcessError(e) => "<pre class=\"mermaid-error\">Mermaid error: " + e + "</pre>"
    case MmdcNotFound => "<pre class=\"mermaid-error\">mmdc not found. Install: npm install @mermaid-js/mermaid-cli</pre>"
  }

  function DiagramOf(render: string -> RenderOutcome): string -> string {
    (block: string) => DiagramHtml(render(block))
  }

  /** The rendering loop of `convert_md_to_pdf`: one HTML fragment per block, in order. */
  method RenderDiagrams(blocks: seq<string>, render: string -> RenderOutcome) returns (svgs: seq<string>)
    ensures svgs == MapPrefix(DiagramOf(render), blocks, |blocks|)
  {
    svgs := [];
    for i := 0 to |blocks|
      invariant svgs == MapPrefix(DiagramOf(render), blocks, i)
    {
      svgs := svgs + [DiagramOf(render)(blocks[i])];
    }
  }

  /** There is one fragment per block, and fragment `k` is the rendering of block `k`. */
  lemma RenderedInOrder(blocks: seq<string>, render: string -> RenderOutcome)
    ensures var svgs := MapPrefix(DiagramOf(render), blocks, |blocks|);
      |svgs| == |blocks| && forall k :: 0 <= k < |blocks| ==> svgs[k] == DiagramHtml(render(blocks[k]))
  {
    forall k | 0 <= k < |blocks|
      ensures MapPrefix(DiagramOf(render), blocks, |blocks|)[k] == DiagramHtml(render(blocks[k]))
    {
      MapPrefixAt(DiagramOf(render), blocks, |blocks|, k);
    }
  }

  /** The wrapper the `i`-th rendering is put back in. */
  function Wrapped(svg: string): string {
    "<div class=\"mermaid-diagram\">" + svg + "</div>"
  }

  /** The HTML after the first `n` passes of the re-insertion loop. */
  function Reinserted(html: string, svgs: seq<string>, n: nat): string
    requires n <= |svgs|
  {
    if n == 0 then html
    else ReplaceAll(Reinserted(html, svgs, n - 1), Placeholder(n - 1), Wrapped(svgs[n - 1]))
  }

  /** The re-insertion loop of `convert_md_to_pdf`. */
  method InsertDiagrams(html: string, svgs: seq<string>) returns (body: string)
    ensures body == Reinserted(html, svgs, |svgs|)
  {
    body := html;
    for i := 0 to |svgs|
      invariant body == Reinserted(html, svgs, i)
    {
      body := ReplaceAll(body, Placeholder(i), Wrapped(svgs[i]));
    }
  }

  /**
   * Pass `i` replaces every occurrence of placeholder `i`: the HTML before
   * the pass is its pieces joined by the placeholder, no piece contains
   * it, and after the pass the same pieces are joined by the wrapped rendering.
   */
  lemma ReinsertStep(html: string, svgs: seq<string>, i: nat)
    requires i < |svgs|
    ensures var before := Reinserted(html, svgs, i);
      var pieces := SplitStr(before, Placeholder(i));
      && Join(Placeholder(i), pieces) == before
      && (forall k :: 0 <= k < |pieces| ==> !Contains(pieces[k], Placeholder(i)))
      && Reinserted(html, svgs, i + 1) == Join(Wrapped(svgs[i]), pieces)
  {
    ReplaceAllSpec(Reinserted(html, svgs, i), Placeholder(i), Wrapped(svgs[i]));
  }

  /** HTML without any of the placeholders passes through the loop unchanged. */
  lemma {:induction false} ReinsertUntouched(html: string, svgs: seq<string>, n: nat)
    requires n <= |svgs|
    requires forall k :: 0 <= k < n ==> !Contains(html, Placeholder(k))
    ensures Reinserted(html, svgs, n) == html
  {
    if n > 0 {
      ReinsertUntouched(html, svgs, n - 1);
      assert !Contains(html, Placeholder(n - 1));
    }
  }

  // ---------------------------------------------------------------------------
  // the renderer's environment

  /** The variables `get_subprocess_env` points at the local temporary directory. */
  const TempVars: set<string> := {"TMPDIR", "TEMP", "TMP", "npm_config_tmp", "BUN_TMPDIR",
                                  "BUN_INSTALL_CACHE_DIR", "PUPPETEER_TMP_DIR"}
  const DroppedVars: set<string> := {"CLAUDECODE", "CLAUDE_CODE_ENTRYPOINT"}
  const CacheVar := "PUPPETEER_CACHE_DIR"

  /**
   * `get_subprocess_env`: a copy of the environment without the two
   * variables that make bun use a shared temporary directory, with the seven
   * temporary-directory variables set to `tmp` and puppeteer's cache under it.
   */
  function SubprocessEnv(environ: map<string, string>, tmp: string): (env: map<string, string>)
    ensures env.Keys == environ.Keys - DroppedVars + TempVars + {CacheVar}
    ensures forall v :: v in TempVars ==> env[v] == tmp
    ensures env[CacheVar] == tmp + "/puppeteer"
    ensures forall v :: v in environ && v !in DroppedVars && v !in TempVars && v != CacheVar ==> env[v] == environ[v]
  {
    var env := environ - DroppedVars;
    var env := env["TMPDIR" := tmp]["TEMP" := tmp]["TMP" := tmp];
    var env := env["npm_config_tmp" := tmp]["BUN_TMPDIR" := tmp]["BUN_INSTALL_CACHE_DIR" := tmp];
    var env := env["PUPPETEER_TMP_DIR" := tmp];
    env[CacheVar := tmp + "/puppeteer"]
  }
}
