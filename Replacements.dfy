/**
 * The parsed answer of `clang-format -output-replacements-xml`: the caret offset the formatter
 * reports and the replacements it asks for, in ascending order of their offsets in the ORIGINAL
 * text. This module also holds the two ways of reading such a list:
 *   - ApplyInOrder: one replacement after the other, each shifted by the drift (the net change in
 *     length made by the replacements before it), as the editor applies them;
 *   - SpliceAll: every value spliced in at its original coordinates, i.e. the untouched gaps of
 *     the original text interleaved with the replacement values, with no drift anywhere.
 * InOrderMatchesSplice proves that the two agree on well-formed lists.
 */
module Replacements {
  import opened Wrappers

  /** Remove `length` chars at `offset` (original coordinates) and insert `value` there. */
  datatype Replacement = Replacement(offset: int, length: int, value: string)

  /** The `<replacements>` document: the new caret offset and the edits, in document order. */
  datatype ReplacementSet = ReplacementSet(cursor: int, replacements: seq<Replacement>)

  /** How much one replacement changes the length of the text. */
  function Delta(r: Replacement): int
  {
    |r.value| - r.length
  }

  /** Offset just past the text a replacement removes, in original coordinates. */
  function End(r: Replacement): int
  {
    r.offset + r.length
  }

  /** The drift after `rs`: the sum of Delta over all of them. */
  function Drift(rs: seq<Replacement>): int
  {
    if rs == [] then 0 else Drift(rs[..|rs| - 1]) + Delta(rs[|rs| - 1])
  }

  /**
   * The sign of the drift: it stays 0 while every value is as long as what it replaces, never
   * grows while every value is at most that long, and never shrinks while every value is at
   * least that long.
   */
  lemma {:induction false} DriftSign(rs: seq<Replacement>)
    ensures (forall i :: 0 <= i < |rs| ==> |rs[i].value| == rs[i].length) ==> Drift(rs) == 0
    ensures (forall i :: 0 <= i < |rs| ==> |rs[i].value| <= rs[i].length) ==> Drift(rs) <= 0
    ensures (forall i :: 0 <= i < |rs| ==> |rs[i].value| >= rs[i].length) ==> Drift(rs) >= 0
  {
    if rs != [] {
      var init := rs[..|rs| - 1];
      assert forall i :: 0 <= i < |init| ==> init[i] == rs[i];
      DriftSign(init);
    }
  }

  /** `s` with `s[start..end]` replaced by `v`. */
  function Splice(s: string, start: int, end: int, v: string): (r: string)
    requires 0 <= start <= end <= |s|
    ensures |r| == |s| - (end - start) + |v|
  {
    s[..start] + v + s[end..]
  }

  /** Where the last replacement of `rs` is applied: its offset shifted by the drift of the others. */
  function ActualStart(rs: seq<Replacement>): int
    requires rs != []
  {
    rs[|rs| - 1].offset + Drift(rs[..|rs| - 1])
  }

  /**
   * The text after applying `rs` one after the other, each at its offset plus the drift so far;
   * None as soon as a step would fall outside the text the earlier steps left (the editor refuses
   * such an edit).
   */
  function ApplyInOrder(s: string, rs: seq<Replacement>): (r: Option<string>)
    ensures r.Some? ==> |r.value| == |s| + Drift(rs)
  {
    if rs == [] then Some(s)
    else match ApplyInOrder(s, rs[..|rs| - 1])
      case None => None
      case Some(t) =>
        var start := ActualStart(rs);
        if 0 <= start <= start + rs[|rs| - 1].length <= |t| then
          Some(Splice(t, start, start + rs[|rs| - 1].length, rs[|rs| - 1].value))
        else None
  }

  /** Every step of the in-order application stays inside the text it edits. */
  predicate Applicable(s: string, rs: seq<Replacement>)
  {
    ApplyInOrder(s, rs).Some?
  }

  /**
   * What clang-format promises of its list: every replacement lies inside the original text and
   * each one starts at or after the end of every earlier one (ascending, non-overlapping).
   */
  predicate WellFormed(s: string, rs: seq<Replacement>)
  {
    (forall i :: 0 <= i < |rs| ==> 0 <= rs[i].offset && 0 <= rs[i].length && End(rs[i]) <= |s|) &&
    (forall i, j :: 0 <= i < j < |rs| ==> End(rs[i]) <= rs[j].offset)
  }

  /** The end of the original text that `rs` covers: the end of its last replacement, or 0. */
  function Covered(rs: seq<Replacement>): int
  {
    if rs == [] then 0 else End(rs[|rs| - 1])
  }

  lemma WellFormedInit(s: string, rs: seq<Replacement>)
    requires WellFormed(s, rs) && rs != []
    ensures WellFormed(s, rs[..|rs| - 1])
    ensures 0 <= Covered(rs[..|rs| - 1]) <= rs[|rs| - 1].offset <= Covered(rs) <= |s|
  {
    var init := rs[..|rs| - 1];
    forall i | 0 <= i < |init|
      ensures 0 <= init[i].offset && 0 <= init[i].length && End(init[i]) <= |s|
    {
      assert init[i] == rs[i];
    }
    forall i, j | 0 <= i < j < |init|
      ensures End(init[i]) <= init[j].offset
    {
      assert init[i] == rs[i] && init[j] == rs[j];
    }
    if init != [] {
      assert End(rs[|rs| - 2]) <= rs[|rs| - 1].offset;
    }
  }

  /** The original text up to Covered(rs), with each value of `rs` in place of what it replaces. */
  function Rewritten(s: string, rs: seq<Replacement>): string
    requires WellFormed(s, rs)
  {
    if rs == [] then []
    else
      WellFormedInit(s, rs);
      var init := rs[..|rs| - 1];
      Rewritten(s, init) + s[Covered(init)..rs[|rs| - 1].offset] + rs[|rs| - 1].value
  }

  /** Every replacement spliced in at its original coordinates; the text after the last one is kept. */
  function SpliceAll(s: string, rs: seq<Replacement>): string
    requires WellFormed(s, rs)
  {
    if rs != [] then WellFormedInit(s, rs); Rewritten(s, rs) + s[Covered(rs)..]
    else s
  }

  /**
   * For an ascending, non-overlapping, in-bounds list, every in-order step lands inside the text
   * it edits, and the result is the same as splicing every value at its original coordinates.
   */
  lemma {:induction false} InOrderMatchesSplice(s: string, rs: seq<Replacement>)
    requires WellFormed(s, rs)
    ensures ApplyInOrder(s, rs) == Some(SpliceAll(s, rs))
  {
    if rs != [] {
      WellFormedInit(s, rs);
      InOrderMatchesSplice(s, rs[..|rs| - 1]);
      InOrderLast(s, rs);
    }
  }

  /** The inductive step of InOrderMatchesSplice: agreement on the list without its last element
      carries over to the whole list. */
  lemma InOrderLast(s: string, rs: seq<Replacement>)
    requires WellFormed(s, rs) && rs != [] && WellFormed(s, rs[..|rs| - 1])
    requires ApplyInOrder(s, rs[..|rs| - 1]) == Some(SpliceAll(s, rs[..|rs| - 1]))
    ensures ApplyInOrder(s, rs) == Some(SpliceAll(s, rs))
  {
    var init, r := rs[..|rs| - 1], rs[|rs| - 1];
    SpliceAllLast(s, rs);
    SpliceAfterPrefix(SpliceAll(s, init), Rewritten(s, init), s, Covered(init), ActualStart(rs),
                      r.offset, r.length, End(r), r.value, SpliceAll(s, rs));
    ApplyLast(s, rs, SpliceAll(s, init), SpliceAll(s, rs));
  }

  /**
   * SpliceAll, split at its last replacement: the list without it splices to its rewritten head
   * followed by the rest of the original, and the last value is spliced into that rest.
   */
  lemma SpliceAllLast(s: string, rs: seq<Replacement>)
    requires WellFormed(s, rs) && rs != []
    ensures WellFormed(s, rs[..|rs| - 1])
    ensures 0 <= Covered(rs[..|rs| - 1]) <= rs[|rs| - 1].offset && 0 <= rs[|rs| - 1].length && End(rs[|rs| - 1]) <= |s|
    ensures |Rewritten(s, rs[..|rs| - 1])| == Covered(rs[..|rs| - 1]) + Drift(rs[..|rs| - 1])
    ensures SpliceAll(s, rs[..|rs| - 1]) == Rewritten(s, rs[..|rs| - 1]) + s[Covered(rs[..|rs| - 1])..]
    ensures SpliceAll(s, rs) ==
      (Rewritten(s, rs[..|rs| - 1]) + s[Covered(rs[..|rs| - 1])..rs[|rs| - 1].offset] + rs[|rs| - 1].value) +
      s[End(rs[|rs| - 1])..]
  {
    var init, r := rs[..|rs| - 1], rs[|rs| - 1];
    WellFormedInit(s, rs);
    RewrittenLength(s, init);
    if init == [] {
      assert Rewritten(s, init) == [] && Covered(init) == 0;
    }
  }

  /**
   * One step of the in-order application: when the others leave `t` and the last replacement
   * fits inside `t`, the whole list leaves `t` with that replacement spliced in.
   */
  lemma ApplyLast(s: string, rs: seq<Replacement>, t: string, u: string)
    requires rs != [] && ApplyInOrder(s, rs[..|rs| - 1]) == Some(t)
    requires 0 <= ActualStart(rs) <= ActualStart(rs) + rs[|rs| - 1].length <= |t|
    requires u == Splice(t, ActualStart(rs), ActualStart(rs) + rs[|rs| - 1].length, rs[|rs| - 1].value)
    ensures ApplyInOrder(s, rs) == Some(u)
  {
  }

  /** Splicing into the untouched tail `s[c..]` behind a rewritten head `h`. */
  lemma SpliceAfterPrefix(t: string, h: string, s: string, c: int, start: int, o: int, len: int, e: int, v: string,
                          u: string)
    requires 0 <= c <= o && 0 <= len && e == o + len <= |s|
    requires t == h + s[c..] && start == |h| + (o - c)
    requires u == (h + s[c..o] + v) + s[e..]
    ensures 0 <= start <= start + len <= |t|
    ensures u == Splice(t, start, start + len, v)
  {
    assert t[..start] == h + s[c..o];
    assert t[start + len..] == s[e..];
  }

  /** The rewritten head is as long as the original text it covers plus the drift. */
  lemma {:induction false} RewrittenLength(s: string, rs: seq<Replacement>)
    requires WellFormed(s, rs)
    ensures |Rewritten(s, rs)| == Covered(rs) + Drift(rs)
  {
    if rs != [] {
      var init, r := rs[..|rs| - 1], rs[|rs| - 1];
      WellFormedInit(s, rs);
      RewrittenLength(s, init);
      assert Rewritten(s, rs) == Rewritten(s, init) + s[Covered(init)..r.offset] + r.value;
    }
  }

  /**
   * Step `i` of the in-order application: replacement `i` is applied at its offset plus the drift
   * of the `i` replacements before it, inside the text they left.
   */
  lemma ApplyNext(s: string, rs: seq<Replacement>, i: nat)
    requires Applicable(s, rs) && i < |rs|
    ensures Applicable(s, rs[..i])
    ensures var t, start := ApplyInOrder(s, rs[..i]).value, rs[i].offset + Drift(rs[..i]);
      0 <= start <= start + rs[i].length <= |t| &&
      ApplyInOrder(s, rs[..i + 1]) == Some(Splice(t, start, start + rs[i].length, rs[i].value))
    ensures Drift(rs[..i + 1]) == Drift(rs[..i]) + Delta(rs[i])
  {
    ApplicablePrefix(s, rs, i + 1);
    var p := rs[..i + 1];
    assert p[..|p| - 1] == rs[..i] && p[|p| - 1] == rs[i];
  }

  /** What applying a whole list in order yields: its length is fixed by ApplyInOrder's contract, its text by InOrderMatchesSplice. */
  lemma AppliedInOrder(s: string, rs: seq<Replacement>)
    requires Applicable(s, rs)
    ensures |ApplyInOrder(s, rs).value| == |s| + Drift(rs)
    ensures WellFormed(s, rs) ==> ApplyInOrder(s, rs).value == SpliceAll(s, rs)
    ensures rs == [] ==> ApplyInOrder(s, rs).value == s
  {
    if WellFormed(s, rs) {
      InOrderMatchesSplice(s, rs);
    }
  }

  /** A list that can be applied can be applied up to any point: the loop's steps are all legal. */
  lemma {:induction false} ApplicablePrefix(s: string, rs: seq<Replacement>, k: nat)
    requires Applicable(s, rs) && k <= |rs|
    ensures Applicable(s, rs[..k])
    decreases |rs|
  {
    if k < |rs| {
      assert rs[..|rs| - 1][..k] == rs[..k];
      ApplicablePrefix(s, rs[..|rs| - 1], k);
    } else {
      assert rs[..k] == rs;
    }
  }
}
