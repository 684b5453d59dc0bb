/**
 * The bookkeeping of the PII and business-data detector: severity tables,
 * position to line/column conversion, and the report `detect_all` builds
 * from the detectors' entity lists.
 */
module Detect {
  import opened Wrappers
  import opened Strings
  import opened Lists
  import opened Sorting
  import opened Entities

  // ---------------------------------------------------------------------------
  // severity tables

  /** `PIIDetector.SEVERITY_MAP`, in dictionary order. */
  const PiiSeverityMap: seq<(string, set<string>)> :=
    [("high", {"SSN", "CREDIT_CARD", "PASSWORD"}),
     ("medium", {"EMAIL", "PHONE", "ADDRESS", "IP"})]

  /** `BusinessDataDetector.BUSINESS_SEVERITY`, in dictionary order. */
  const BusinessSeverityMap: seq<(string, set<string>)> :=
    [("high", {"REVENUE", "COSTS", "MARKET_SIZE", "MONETARY_VALUE"}),
     ("medium", {"PRICING", "FINANCIAL_PCT", "HEADCOUNT", "DEPARTMENT"})]

  /**
   * The loop of `_get_severity`: the level of the first table entry whose set
   * holds `kind`, or `"low"` when none does.
   */
  function FirstLevel(table: seq<(string, set<string>)>, kind: string): (level: string)
    ensures forall i :: 0 <= i < |table| && kind in table[i].1 ==>
      exists j :: 0 <= j <= i && kind in table[j].1 && level == table[j].0
    ensures (forall i :: 0 <= i < |table| ==> kind !in table[i].1) ==> level == "low"
  {
    match FirstEntry(table, kind)
    case Some(j) => table[j].0
    case None => "low"
  }

  /** The index of the first entry whose set holds `kind`, if any. */
  function FirstEntry(table: seq<(string, set<string>)>, kind: string): (r: Option<nat>)
    ensures r.Some? ==> r.value < |table| && kind in table[r.value].1
    ensures r.Some? ==> forall l :: 0 <= l < r.value ==> kind !in table[l].1
    ensures r.None? ==> forall i :: 0 <= i < |table| ==> kind !in table[i].1
  {
    if table == [] then None
    else if kind in table[0].1 then Some(0)
    else
      match FirstEntry(table[1..], kind)
      case None => None
      case Some(j) => Some(j + 1)
  }

  /** `PIIDetector._get_severity`. */
  function PiiSeverity(kind: string): (level: string)
    ensures level == "high" <==> kind in {"SSN", "CREDIT_CARD", "PASSWORD"}
    ensures level == "medium" <==> kind in {"EMAIL", "PHONE", "ADDRESS", "IP"}
    ensures level == "low" <==> kind !in {"SSN", "CREDIT_CARD", "PASSWORD", "EMAIL", "PHONE", "ADDRESS", "IP"}
  {
    var level := FirstLevel(PiiSeverityMap, kind);
    assert PiiSeverityMap[0].1 == {"SSN", "CREDIT_CARD", "PASSWORD"};
    assert PiiSeverityMap[1].1 == {"EMAIL", "PHONE", "ADDRESS", "IP"};
    level
  }

  /** `BusinessDataDetector._get_severity`. */
  function BusinessSeverity(kind: string): (level: string)
    ensures level == "high" <==> kind in {"REVENUE", "COSTS", "MARKET_SIZE", "MONETARY_VALUE"}
    ensures level == "medium" <==> kind in {"PRICING", "FINANCIAL_PCT", "HEADCOUNT", "DEPARTMENT"}
    ensures level == "low" <==> kind !in {"REVENUE", "COSTS", "MARKET_SIZE", "MONETARY_VALUE", "PRICING", "FINANCIAL_PCT", "HEADCOUNT", "DEPARTMENT"}
  {
    var level := FirstLevel(BusinessSeverityMap, kind);
    assert BusinessSeverityMap[0].1 == {"REVENUE", "COSTS", "MARKET_SIZE", "MONETARY_VALUE"};
    assert BusinessSeverityMap[1].1 == {"PRICING", "FINANCIAL_PCT", "HEADCOUNT", "DEPARTMENT"};
    level
  }

  // ---------------------------------------------------------------------------
  // line and column

  /**
   * `get_line_column`: the prefix `text[:position]` split on newlines gives
   * the line (one more than its newlines) and the column (one more than the
   * characters after its last newline).
   */
  function LineColumn(text: string, position: nat): (lc: (nat, nat))
    ensures var p := First(text, position);
      && lc.0 == 1 + Count(p, '\n')
      && 1 <= lc.1 <= |p| + 1
      && '\n' !in p[|p| - (lc.1 - 1)..]
      && (lc.1 - 1 == |p| || p[|p| - lc.1] == '\n')
  {
    var p := First(text, position);
    var lines := SplitOn(p, '\n');
    SplitOnLength(p, '\n');
    SplitOnLast(p, '\n');
    (|lines|, |lines[|lines| - 1]| + 1)
  }

  lemma LineColumnOfStart(text: string)
    ensures LineColumn(text, 0) == (1, 1)
  {
    assert First(text, 0) == [];
  }

  // ---------------------------------------------------------------------------
  // the report

  /** An entity with the `line` and `column` keys `detect_all` adds to it. */
  datatype Located = Located(entity: Entity, line: nat, column: nat)

  function Locate(text: string, e: Entity): (l: Located)
    ensures l.entity == e && (l.line, l.column) == LineColumn(text, e.start)
  {
    var lc := LineColumn(text, e.start);
    Located(e, lc.0, lc.1)
  }

  /** `severity_order.get(severity, 3)`. */
  function SeverityRank(severity: string): (rank: nat)
    ensures rank <= 3
    ensures rank == 3 <==> severity !in {"high", "medium", "low"}
  {
    if severity == "high" then 0
    else if severity == "medium" then 1
    else if severity == "low" then 2
    else 3
  }

  /** Reading order: line first, then column. */
  predicate ByPosition(a: Located, b: Located) {
    a.line < b.line || (a.line == b.line && a.column <= b.column)
  }

  /** The sort key `(severity rank, line, column)` compared lexicographically. */
  predicate ByRankThenPosition(a: Located, b: Located) {
    var ra, rb := SeverityRank(a.entity.severity), SeverityRank(b.entity.severity);
    ra < rb || (ra == rb && ByPosition(a, b))
  }

  lemma ByRankThenPositionIsPreorder()
    ensures Total(ByRankThenPosition) && Transitive(ByRankThenPosition)
  {
  }

  predicate IsHigh(l: Located) { l.entity.severity == "high" }
  predicate IsMedium(l: Located) { l.entity.severity == "medium" }
  predicate IsLow(l: Located) { l.entity.severity == "low" }
  predicate IsPii(l: Located) { l.entity.category == "PII" }
  predicate IsBusiness(l: Located) { l.entity.category == "BUSINESS" }

  /** Every severity is one of the three levels of the report. */
  predicate KnownSeverities(s: seq<Located>) {
    forall k :: 0 <= k < |s| ==> s[k].entity.severity in {"high", "medium", "low"}
  }

  /**
   * The three severity lists never hold more than the whole list, and hold
   * all of it exactly when every severity is high, medium or low.
   */
  lemma {:induction false} SeverityPartition(s: seq<Located>)
    ensures |Filter(s, IsHigh)| + |Filter(s, IsMedium)| + |Filter(s, IsLow)| <= |s|
    ensures |Filter(s, IsHigh)| + |Filter(s, IsMedium)| + |Filter(s, IsLow)| == |s| <==> KnownSeverities(s)
  {
    if s != [] {
      SeverityPartition(s[1..]);
      assert KnownSeverities(s) <==> s[0].entity.severity in {"high", "medium", "low"} && KnownSeverities(s[1..]) by {
        assert forall k :: 1 <= k < |s| ==> s[k] == s[1..][k - 1];
      }
    }
  }

  /** In a list sorted by rank, the entities of one severity are in reading order. */
  lemma SameRankInReadingOrder(s: seq<Located>, p: Located -> bool, severity: string)
    requires Sorted(s, ByRankThenPosition)
    requires forall l :: p(l) ==> l.entity.severity == severity
    ensures Sorted(Filter(s, p), ByPosition)
  {
    FilterSorted(s, p, ByRankThenPosition);
  }

  /** The message `_get_recommendation` gives for high-severity findings. */
  const HighAdvice := "High severity PII and/or confidential business data detected. Anonymize before sharing."
  const MediumAdvice := "Medium severity sensitive data detected. Consider anonymization before sharing."
  const LowAdvice := "Low severity entities detected. Review and anonymize if needed."
  const NoneAdvice := "No sensitive data detected."

  /** `_get_recommendation`: the most severe non-empty list decides. */
  function Recommendation<T>(high: seq<T>, medium: seq<T>, low: seq<T>): (r: string)
    ensures r == HighAdvice <==> high != []
    ensures r == MediumAdvice <==> high == [] && medium != []
    ensures r == LowAdvice <==> high == [] && medium == [] && low != []
    ensures r == NoneAdvice <==> high == [] && medium == [] && low == []
  {
    if high != [] then HighAdvice
    else if medium != [] then MediumAdvice
    else if low != [] then LowAdvice
    else NoneAdvice
  }

  /** The dictionary `detect_all` returns, without the file name. */
  datatype Report = Report(
    totalEntities: nat,
    highCount: nat, mediumCount: nat, lowCount: nat,
    piiCount: nat, businessCount: nat,
    highSeverity: seq<Located>, mediumSeverity: seq<Located>, lowSeverity: seq<Located>,
    recommendation: string)

  /** Every entity with its line and column in `text`. */
  function LocateAll(text: string, es: seq<Entity>): (ls: seq<Located>)
    ensures |ls| == |es| && forall k :: 0 <= k < |es| ==> ls[k] == Locate(text, es[k])
  {
    seq(|es|, k requires 0 <= k < |es| => Locate(text, es[k]))
  }

  /** The entity list of `detect_all`: de-duplicated, located, sorted by rank and position. */
  function Ordered(text: string, all: seq<Entity>): seq<Located> {
    SortBy(LocateAll(text, Unique(all)), ByRankThenPosition)
  }

  /** The report `detect_all` builds from the sorted entity list. */
  function ReportOf(ordered: seq<Located>): Report {
    var high, medium, low := Filter(ordered, IsHigh), Filter(ordered, IsMedium), Filter(ordered, IsLow);
    Report(|ordered|, |high|, |medium|, |low|,
      |Filter(ordered, IsPii)|, |Filter(ordered, IsBusiness)|,
      high, medium, low, Recommendation(high, medium, low))
  }

  /** The loop of `detect_all` that adds the line and column of each entity. */
  method LocateEach(text: string, es: seq<Entity>) returns (located: seq<Located>)
    ensures located == LocateAll(text, es)
  {
    located := [];
    for i := 0 to |es|
      invariant |located| == i
      invariant forall k :: 0 <= k < i ==> located[k] == Locate(text, es[k])
    {
      located := located + [Locate(text, es[i])];
    }
  }

  /**
   * `detect_all` after the file is read and the detectors have run: the
   * de-duplicated entities, located in `text`, sorted by severity rank and
   * position (`ordered`), and the report partitioning them.
   */
  method DetectAll(text: string, pii: seq<Entity>, business: seq<Entity>) returns (ordered: seq<Located>, report: Report)
    ensures ordered == Ordered(text, pii + business)
    ensures report == ReportOf(ordered)
  {
    var unique := UniqueByPosition(pii + business);
    var located := LocateEach(text, unique);
    ordered := SortBy(located, ByRankThenPosition);
    var high := Filter(ordered, IsHigh);
    var medium := Filter(ordered, IsMedium);
    var low := Filter(ordered, IsLow);
    report := Report(|ordered|, |high|, |medium|, |low|,
      |Filter(ordered, IsPii)|, |Filter(ordered, IsBusiness)|,
      high, medium, low, Recommendation(high, medium, low));
  }

  /**
   * The entity list of `detect_all` is sorted by rank and position, holds
   * detected entities with their line and column, no two with the same
   * `(start, end)`, and one for every key detected.
   */
  lemma OrderedFacts(text: string, all: seq<Entity>)
    ensures var ordered := Ordered(text, all);
      && Sorted(ordered, ByRankThenPosition)
      && (forall k :: 0 <= k < |ordered| ==>
            ordered[k].entity in all && ordered[k] == Locate(text, ordered[k].entity))
      && (forall k, l :: 0 <= k < l < |ordered| ==> Key(ordered[k].entity) != Key(ordered[l].entity))
      && (forall e :: e in all ==> exists k :: 0 <= k < |ordered| && Key(ordered[k].entity) == Key(e))
  {
    var unique := Unique(all);
    var located := LocateAll(text, unique);
    UniqueFacts(all);
    ByRankThenPositionIsPreorder();
    SortBySorted(located, ByRankThenPosition);
    LocatedFacts(all, unique, located, Ordered(text, all), text);
  }

  /**
   * The report of a sorted list: three severity lists in reading order,
   * which together hold every entity exactly when all severities are known,
   * and the recommendation of the most severe non-empty list.
   */
  lemma ReportFacts(ordered: seq<Located>)
    requires Sorted(ordered, ByRankThenPosition)
    ensures var report := ReportOf(ordered);
      && report.totalEntities == |ordered|
      && report.highCount == |report.highSeverity| && report.mediumCount == |report.mediumSeverity|
      && report.lowCount == |report.lowSeverity|
      && (forall k :: 0 <= k < |report.highSeverity| ==> IsHigh(report.highSeverity[k]) && report.highSeverity[k] in ordered)
      && (forall k :: 0 <= k < |report.mediumSeverity| ==> IsMedium(report.mediumSeverity[k]) && report.mediumSeverity[k] in ordered)
      && (forall k :: 0 <= k < |report.lowSeverity| ==> IsLow(report.lowSeverity[k]) && report.lowSeverity[k] in ordered)
      && Sorted(report.highSeverity, ByPosition) && Sorted(report.mediumSeverity, ByPosition)
      && Sorted(report.lowSeverity, ByPosition)
      && report.highCount + report.mediumCount + report.lowCount <= report.totalEntities
      && (report.highCount + report.mediumCount + report.lowCount == report.totalEntities <==> KnownSeverities(ordered))
      && (report.recommendation == HighAdvice <==> report.highCount > 0)
      && (report.recommendation == MediumAdvice <==> report.highCount == 0 && report.mediumCount > 0)
      && (report.recommendation == LowAdvice <==> report.highCount == 0 && report.mediumCount == 0 && report.lowCount > 0)
      && (report.recommendation == NoneAdvice <==> report.highCount + report.mediumCount + report.lowCount == 0)
  {
    SeverityPartition(ordered);
    SameRankInReadingOrder(ordered, IsHigh, "high");
    SameRankInReadingOrder(ordered, IsMedium, "medium");
    SameRankInReadingOrder(ordered, IsLow, "low");
  }

  /** The located, de-duplicated and sorted list keeps the entities and keys of the input. */
  lemma LocatedFacts(all: seq<Entity>, unique: seq<Entity>, located: seq<Located>, ordered: seq<Located>, text: string)
    requires DistinctKeys(unique)
    requires forall k :: 0 <= k < |unique| ==> unique[k] in all
    requires forall x :: HasKey(unique, x) <==> HasKey(all, x)
    requires |located| == |unique| && forall i :: 0 <= i < |unique| ==> located[i] == Locate(text, unique[i])
    requires multiset(ordered) == multiset(located)
    ensures forall k :: 0 <= k < |ordered| ==>
      ordered[k].entity in all && ordered[k] == Locate(text, ordered[k].entity)
    ensures forall k, l :: 0 <= k < l < |ordered| ==> Key(ordered[k].entity) != Key(ordered[l].entity)
    ensures forall e :: e in all ==> exists k :: 0 <= k < |ordered| && Key(ordered[k].entity) == Key(e)
  {
    forall k | 0 <= k < |ordered| ensures ordered[k].entity in all && ordered[k] == Locate(text, ordered[k].entity) {
      OrderedFromLocated(unique, located, ordered, text, k);
    }
    forall k, l | 0 <= k < l < |ordered| ensures Key(ordered[k].entity) != Key(ordered[l].entity) {
      OrderedDistinct(unique, located, ordered, k, l);
    }
    forall e | e in all ensures exists k :: 0 <= k < |ordered| && Key(ordered[k].entity) == Key(e) {
      OrderedCovers(all, unique, located, ordered, e);
    }
  }

  lemma OrderedFromLocated(unique: seq<Entity>, located: seq<Located>, ordered: seq<Located>, text: string, k: nat)
    requires |located| == |unique| && forall i :: 0 <= i < |unique| ==> located[i] == Locate(text, unique[i])
    requires multiset(ordered) == multiset(located)
    requires k < |ordered|
    ensures ordered[k].entity in unique && ordered[k] == Locate(text, ordered[k].entity)
  {
    assert ordered[k] in multiset(located);
    var i :| 0 <= i < |located| && located[i] == ordered[k];
  }

  lemma OrderedCovers(all: seq<Entity>, unique: seq<Entity>, located: seq<Located>, ordered: seq<Located>, e: Entity)
    requires forall x :: HasKey(unique, x) <==> HasKey(all, x)
    requires |located| == |unique| && forall i :: 0 <= i < |unique| ==> located[i].entity == unique[i]
    requires multiset(ordered) == multiset(located)
    requires e in all
    ensures exists k :: 0 <= k < |ordered| && Key(ordered[k].entity) == Key(e)
  {
    var j :| 0 <= j < |all| && all[j] == e;
    assert HasKey(all, Key(e));
    var i :| 0 <= i < |unique| && Key(unique[i]) == Key(e);
    assert located[i] in multiset(ordered);
    var k :| 0 <= k < |ordered| && ordered[k] == located[i];
  }

  /** Sorting the located, de-duplicated list keeps the keys distinct. */
  lemma OrderedDistinct(unique: seq<Entity>, located: seq<Located>, ordered: seq<Located>, k: nat, l: nat)
    requires DistinctKeys(unique)
    requires |located| == |unique| && forall i :: 0 <= i < |unique| ==> located[i].entity == unique[i]
    requires multiset(ordered) == multiset(located)
    requires k < l < |ordered|
    ensures Key(ordered[k].entity) != Key(ordered[l].entity)
  {
    var ms := multiset(ordered);
    assert ordered[k] in ms && ordered[l] in ms;
    var i :| 0 <= i < |located| && located[i] == ordered[k];
    var j :| 0 <= j < |located| && located[j] == ordered[l];
    if ordered[k] == ordered[l] {
      // Then it would occur twice in `ordered` but once in `located`.
      DuplicateCount(ordered, k, l);
      UniqueCount(located, i);
    }
  }

  /** An element at two indices occurs at least twice. */
  lemma DuplicateCount<T>(s: seq<T>, k: nat, l: nat)
    requires k < l < |s| && s[k] == s[l]
    ensures multiset(s)[s[k]] >= 2
  {
    assert s == s[..k] + [s[k]] + s[k + 1..l] + [s[l]] + s[l + 1..];
  }

  /** An entry of a list with distinct keys occurs once. */
  lemma UniqueCount(located: seq<Located>, i: nat)
    requires i < |located|
    requires forall a, b :: 0 <= a < b < |located| ==> Key(located[a].entity) != Key(located[b].entity)
    ensures multiset(located)[located[i]] == 1
  {
    var x := located[i];
    assert located == located[..i] + [x] + located[i + 1..];
    assert x !in located[..i] by {
      assert forall a :: 0 <= a < i ==> located[..i][a] == located[a];
    }
    var tail := located[i + 1..];
    assert x !in tail by {
      assert forall a :: 0 <= a < |tail| ==> tail[a] == located[i + 1 + a];
    }
  }
}
