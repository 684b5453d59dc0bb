/**
 * The pytest hooks that run structural tests first and skip behavioral
 * tests once a structural test has failed. A collected test is reduced to
 * its node id and its two markers.
 */
module TestOrdering {
  import opened Strings
  import opened Lists
  import opened Wrappers

  /** A collected test: its node id and whether it carries each marker. */
  datatype Item = Item(nodeid: string, structural: bool, behavioral: bool)

  predicate IsStructural(i: Item) { i.structural }
  predicate IsBehavioral(i: Item) { i.behavioral }
  predicate IsOther(i: Item) { !i.structural && !i.behavioral }

  // ---------------------------------------------------------------------------
  // pytest_collection_modifyitems

  /** The order the hook leaves: structural items, then the others, then behavioral ones. */
  function Reordered(items: seq<Item>): seq<Item> {
    Filter(items, IsStructural) + Filter(items, IsOther) + Filter(items, IsBehavioral)
  }

  /** A list comprehension `[i for i in items if p(i)]`. */
  method Select(items: seq<Item>, p: Item -> bool) returns (r: seq<Item>)
    ensures r == Filter(items, p)
  {
    r := [];
    for k := 0 to |items|
      invariant r == Filter(items[..k], p)
    {
      FilterSnoc(items[..k], items[k], p);
      assert items[..k + 1] == items[..k] + [items[k]];
      if p(items[k]) {
        r := r + [items[k]];
      }
    }
    assert items[..|items|] == items;
  }

  /** The session's list of collected items, which the hook rearranges in place. */
  class Collection {
    var items: seq<Item>

    constructor (items: seq<Item>)
      ensures this.items == items
    {
      this.items := items;
    }

    /** `pytest_collection_modifyitems`: `items[:] = structural + other + behavioral`. */
    method Reorder()
      modifies this
      ensures items == Reordered(old(items))
    {
      var structural := Select(items, IsStructural);
      var behavioral := Select(items, IsBehavioral);
      var other := Select(items, IsOther);
      items := structural + other + behavioral;
    }
  }

  /**
   * After the reorder the structural items come first, then the items
   * with neither marker, then the behavioral items.
   */
  lemma ReorderedGroups(items: seq<Item>)
    ensures var r := Reordered(items);
      var a := |Filter(items, IsStructural)|;
      var b := a + |Filter(items, IsOther)|;
      && |r| == b + |Filter(items, IsBehavioral)|
      && (forall k :: 0 <= k < a ==> r[k].structural)
      && (forall k :: a <= k < b ==> !r[k].structural && !r[k].behavioral)
      && (forall k :: b <= k < |r| ==> r[k].behavioral)
  {
    var s, o, h := Filter(items, IsStructural), Filter(items, IsOther), Filter(items, IsBehavioral);
    var r := s + o + h;
    assert forall k :: 0 <= k < |s| ==> r[k] == s[k];
    assert forall k :: |s| <= k < |s| + |o| ==> r[k] == o[k - |s|];
    assert forall k :: |s| + |o| <= k < |r| ==> r[k] == h[k - |s| - |o|];
  }

  /** Each of the three groups keeps the order its items had. */
  lemma ReorderedKeepsOrder(items: seq<Item>)
    ensures var r := Reordered(items);
      var a := |Filter(items, IsStructural)|;
      var b := a + |Filter(items, IsOther)|;
      && b <= |r|
      && IsSubsequence(r[..a], items) && IsSubsequence(r[a..b], items) && IsSubsequence(r[b..], items)
  {
    var s, o, h := Filter(items, IsStructural), Filter(items, IsOther), Filter(items, IsBehavioral);
    var r := s + o + h;
    assert r[..|s|] == s && r[|s|..|s| + |o|] == o && r[|s| + |o|..] == h;
    FilterIsSubsequence(items, IsStructural);
    FilterIsSubsequence(items, IsOther);
    FilterIsSubsequence(items, IsBehavioral);
  }

  /** Each item occurs once for each group it falls into. */
  lemma ReorderedCount(items: seq<Item>, x: Item)
    ensures var c := multiset(items)[x];
      multiset(Reordered(items))[x] ==
        (if x.structural then c else 0) + (if IsOther(x) then c else 0) + (if x.behavioral then c else 0)
  {
    var s, o, h := Filter(items, IsStructural), Filter(items, IsOther), Filter(items, IsBehavioral);
    assert multiset(s + o + h) == multiset(s) + multiset(o) + multiset(h);
    FilterMultiset(items, IsStructural, x);
    FilterMultiset(items, IsOther, x);
    FilterMultiset(items, IsBehavioral, x);
  }

  /** Without items that carry both markers the reorder is a permutation. */
  lemma ReorderedPermutation(items: seq<Item>)
    requires forall k :: 0 <= k < |items| ==> !(items[k].structural && items[k].behavioral)
    ensures multiset(Reordered(items)) == multiset(items)
  {
    forall x ensures multiset(Reordered(items))[x] == multiset(items)[x] {
      ReorderedCount(items, x);
      if x in items {
        var k :| 0 <= k < |items| && items[k] == x;
      }
    }
  }

  /** An item with both markers appears twice as often after the reorder. */
  lemma ReorderedDuplicates(items: seq<Item>, x: Item)
    requires x.structural && x.behavioral
    ensures multiset(Reordered(items))[x] == 2 * multiset(items)[x]
  {
    ReorderedCount(items, x);
  }

  // ---------------------------------------------------------------------------
  // failure tracking and the setup guard

  /** What `pytest_runtest_makereport` sees of one report: its item, its phase, whether it failed. */
  datatype Report = Report(item: Item, when: string, failed: bool)

  /** A failed call of a structural test. */
  predicate StructuralFailure(r: Report) {
    r.when == "call" && r.failed && r.item.structural
  }

  /** The node ids recorded after the given reports, in the order they came. */
  function FailuresAfter(reports: seq<Report>): (ids: seq<string>)
    ensures |ids| <= |reports|
  {
    if reports == [] then []
    else
      var last := reports[|reports| - 1];
      FailuresAfter(reports[..|reports| - 1]) + (if StructuralFailure(last) then [last.item.nodeid] else [])
  }

  /** The failure list is empty exactly while no structural test has failed in its call phase. */
  lemma {:induction false} FailuresAfterMeaning(reports: seq<Report>)
    ensures FailuresAfter(reports) != [] <==> exists k :: 0 <= k < |reports| && StructuralFailure(reports[k])
  {
    if reports != [] {
      var init := reports[..|reports| - 1];
      FailuresAfterMeaning(init);
      assert forall k :: 0 <= k < |init| ==> init[k] == reports[k];
      if FailuresAfter(init) != [] {
        var k :| 0 <= k < |init| && StructuralFailure(init[k]);
        assert StructuralFailure(reports[k]);
      }
    }
  }

  /** `_structural_failures`, kept across the hooks of one session. */
  class FailureLog {
    var failures: seq<string>

    constructor ()
      ensures failures == []
    {
      failures := [];
    }

    /** `pytest_runtest_makereport`: record a failed call of a structural test, and nothing else. */
    method MakeReport(report: Report)
      modifies this
      ensures failures == old(failures) + (if StructuralFailure(report) then [report.item.nodeid] else [])
    {
      if report.when == "call" && report.failed {
        if report.item.structural {
          failures := failures + [report.item.nodeid];
        }
      }
    }

    /**
     * `pytest_runtest_setup`: the skip message for a behavioral item once
     * some structural test has failed, and nothing otherwise.
     */
    method Setup(item: Item) returns (skip: Option<string>)
      ensures skip.Some? <==> item.behavioral && failures != []
      ensures skip.Some? ==> StartsWith(skip.value, "Skipped: " + Decimal(|failures|) + " ")
    {
      if item.behavioral && failures != [] {
        var head := "Skipped: " + Decimal(|failures|) + " ";
        var message := head + "structural test(s) failed — fix L2 before running behavioral";
        assert message[..|head|] == head;
        skip := Some(message);
      } else {
        skip := None;
      }
    }
  }

  /** Feeding reports to a fresh log one by one leaves `FailuresAfter` of them in it. */
  method RunReports(reports: seq<Report>) returns (log: FailureLog)
    ensures fresh(log) && log.failures == FailuresAfter(reports)
  {
    log := new FailureLog();
    for k := 0 to |reports|
      invariant log.failures == FailuresAfter(reports[..k])
    {
      assert reports[..k + 1][..k] == reports[..k];
      log.MakeReport(reports[k]);
    }
    assert reports[..|reports|] == reports;
  }
}
