/**
 * The span rewriting of `Anonymizer.anonymize_text`: each entity's
 * `(start, end)` span is cut out and its replacement put in its place,
 * working from the rightmost span to the leftmost so that the offsets of the
 * spans still to come stay valid.
 */
module Splicing {
  import opened Strings
  import opened Lists
  import opened Entities

  /** One round of the loop: `t[:start] + r + t[end:]`. */
  function Step(t: string, e: Entity, r: string): string {
    First(t, e.start) + r + Drop(t, e.end)
  }

  /** On a span within the text, a round cuts out exactly that span. */
  lemma StepSlices(t: string, e: Entity, r: string)
    requires e.start <= e.end <= |t|
    ensures Step(t, e, r) == t[..e.start] + r + t[e.end..]
  {
  }

  /** The loop over the entities `d`, in order, with replacements `reps`. */
  function Rewrite(t: string, d: seq<Entity>, reps: seq<string>): string
    requires |reps| == |d|
    decreases |d|
  {
    if d == [] then t else Rewrite(Step(t, d[0], reps[0]), d[1..], reps[1..])
  }

  /**
   * Spans within `bound` that do not overlap, the rightmost first: each span
   * ends at or before the start of the span listed before it.
   */
  predicate Fits(d: seq<Entity>, bound: nat) {
    d == [] || (d[0].start <= d[0].end <= bound && Fits(d[1..], d[0].start))
  }

  /**
   * The intended result: the text before the rightmost span (itself rewritten),
   * then that span's replacement, then the untouched text after it. Unfolded,
   * the original gaps between the spans alternate with the replacements.
   */
  function Splice(t: string, d: seq<Entity>, reps: seq<string>): string
    requires |reps| == |d| && Fits(d, |t|)
    decreases |d|
  {
    if d == [] then t
    else Splice(t[..d[0].start], d[1..], reps[1..]) + reps[0] + t[d[0].end..]
  }

  /** Appending one entity to the list adds one round at the end. */
  lemma {:induction false} RewriteSnoc(t: string, d: seq<Entity>, reps: seq<string>, e: Entity, r: string)
    requires |reps| == |d|
    ensures Rewrite(t, d + [e], reps + [r]) == Step(Rewrite(t, d, reps), e, r)
    decreases |d|
  {
    if d == [] {
      assert Rewrite(Step(t, e, r), [], []) == Step(t, e, r);
    } else {
      assert (d + [e])[1..] == d[1..] + [e];
      assert (reps + [r])[1..] == reps[1..] + [r];
      RewriteSnoc(Step(t, d[0], reps[0]), d[1..], reps[1..], e, r);
    }
  }

  lemma {:induction false} FitsWeaken(d: seq<Entity>, bound: nat, larger: nat)
    requires Fits(d, bound) && bound <= larger
    ensures Fits(d, larger)
  {
  }

  /** Spans that fit in `p` never touch text appended after `p`. */
  lemma {:induction false} RewriteSuffix(p: string, x: string, d: seq<Entity>, reps: seq<string>)
    requires |reps| == |d| && Fits(d, |p|)
    ensures Rewrite(p + x, d, reps) == Rewrite(p, d, reps) + x
    decreases |d|
  {
    if d != [] {
      var e, r := d[0], reps[0];
      assert (p + x)[..e.start] == p[..e.start];
      assert (p + x)[e.end..] == p[e.end..] + x;
      var u := Step(p, e, r);
      StepSlices(p, e, r);
      StepSlices(p + x, e, r);
      assert Step(p + x, e, r) == u + x;
      FitsWeaken(d[1..], e.start, |u|);
      RewriteSuffix(u, x, d[1..], reps[1..]);
    }
  }

  /** On spans that fit, the loop computes the intended result. */
  lemma {:induction false} RewriteIsSplice(t: string, d: seq<Entity>, reps: seq<string>)
    requires |reps| == |d| && Fits(d, |t|)
    ensures Rewrite(t, d, reps) == Splice(t, d, reps)
    decreases |d|
  {
    if d != [] {
      var e, r := d[0], reps[0];
      var head, tail, rest, restReps := t[..e.start], r + t[e.end..], d[1..], reps[1..];
      assert Fits(rest, |head|);
      calc {
        Rewrite(t, d, reps);
        Rewrite(Step(t, e, r), rest, restReps);
        == { StepSlices(t, e, r); assert Step(t, e, r) == head + tail; }
        Rewrite(head + tail, rest, restReps);
        == { RewriteSuffix(head, tail, rest, restReps); }
        Rewrite(head, rest, restReps) + tail;
        == { RewriteIsSplice(head, rest, restReps); }
        Splice(head, rest, restReps) + tail;
        Splice(t, d, reps);
      }
    }
  }

  /** Every span of a fitting list lies within the bound. */
  lemma {:induction false} FitsBounds(d: seq<Entity>, bound: nat, k: nat)
    requires Fits(d, bound) && k < |d|
    ensures d[k].start <= d[k].end <= bound
  {
    if k > 0 {
      FitsBounds(d[1..], d[0].start, k - 1);
    }
  }

  /** Replacing every span by the text it covers gives back the text. */
  lemma {:induction false} SpliceIdentity(t: string, d: seq<Entity>, reps: seq<string>)
    requires |reps| == |d| && Fits(d, |t|)
    requires forall k :: 0 <= k < |d| ==> reps[k] == Slice(t, d[k].start, d[k].end)
    ensures Splice(t, d, reps) == t
    decreases |d|
  {
    if d != [] {
      var s0, e0 := d[0].start, d[0].end;
      var head := t[..s0];
      var rest, restReps := d[1..], reps[1..];
      forall k | 0 <= k < |rest| ensures restReps[k] == Slice(head, rest[k].start, rest[k].end) {
        FitsBounds(rest, s0, k);
        var a, b := rest[k].start, rest[k].end;
        assert rest[k] == d[k + 1] && restReps[k] == reps[k + 1];
        assert head[a..b] == t[a..b];
      }
      SpliceIdentity(head, rest, restReps);
      assert reps[0] == t[s0..e0];
      ThreeSlices(t, s0, e0);
    }
  }

  /**
   * The text after the rightmost span and before the leftmost span survives
   * unchanged at the end and at the start of the result.
   */
  lemma {:induction false} SpliceKeepsOutside(t: string, d: seq<Entity>, reps: seq<string>)
    requires |reps| == |d| && Fits(d, |t|) && d != []
    ensures var r := Splice(t, d, reps);
      && StartsWith(r, First(t, d[|d| - 1].start))
      && EndsWith(r, t[d[0].end..])
    decreases |d|
  {
    var head := t[..d[0].start];
    var r := Splice(t, d, reps);
    var left := Splice(head, d[1..], reps[1..]);
    assert r == left + reps[0] + t[d[0].end..];
    if |d| == 1 {
      assert left == head;
    } else {
      SpliceKeepsOutside(head, d[1..], reps[1..]);
      var first := d[|d| - 1];
      assert d[1..][|d| - 2] == first;
      FitsBounds(d[1..], d[0].start, |d| - 2);
      assert head[..first.start] == t[..first.start];
    }
  }
}
