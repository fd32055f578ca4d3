/**
 * The end-of-run recap: the fold of all compression results into totals,
 * the saturating "saved" figure, and the verbosity-tiered report. The
 * printed text is abstracted into a sequence of report events: one
 * `PerFile` event per result that gets its own block, then one `Summary`.
 */
module Recap {
  import opened Options
  import opened Compressor

  /** The fold's accumulator: byte totals and the three status counters. */
  datatype Totals = Totals(originalSize: nat, compressedSize: nat, success: nat, skipped: nat, errors: nat)

  const Zero: Totals := Totals(0, 0, 0, 0, 0)

  /** The counter that tracks status `s`. */
  function Counter(t: Totals, s: CompressionStatus): nat
  {
    match s
    case Success => t.success
    case Skipped => t.skipped
    case Error => t.errors
  }

  function Plus(a: Totals, b: Totals): Totals
  {
    Totals(a.originalSize + b.originalSize, a.compressedSize + b.compressedSize,
           a.success + b.success, a.skipped + b.skipped, a.errors + b.errors)
  }

  /**
   * One step of the fold: add the sizes and increment exactly one counter,
   * the one of the result's own status, by one.
   */
  function Step(acc: Totals, r: CompressionResult): (next: Totals)
    ensures forall s :: Counter(next, s) == Counter(acc, s) + (if r.status == s then 1 else 0)
    ensures next.originalSize == acc.originalSize + r.originalSize
    ensures next.compressedSize == acc.compressedSize + r.compressedSize
  {
    var (success, skipped, errors) :=
      match r.status
      case Success => (acc.success + 1, acc.skipped, acc.errors)
      case Skipped => (acc.success, acc.skipped + 1, acc.errors)
      case Error => (acc.success, acc.skipped, acc.errors + 1);
    Totals(acc.originalSize + r.originalSize, acc.compressedSize + r.compressedSize, success, skipped, errors)
  }

  /** The left fold over the results, in sequence order. */
  function Fold(acc: Totals, rs: seq<CompressionResult>): (t: Totals)
    ensures t.success + t.skipped + t.errors == acc.success + acc.skipped + acc.errors + |rs|
    ensures t.originalSize >= acc.originalSize && t.compressedSize >= acc.compressedSize
    decreases |rs|
  {
    if |rs| == 0 then acc else Fold(Step(acc, rs[0]), rs[1..])
  }

  function Tally(rs: seq<CompressionResult>): (t: Totals)
    ensures t.success + t.skipped + t.errors == |rs|
  {
    Fold(Zero, rs)
  }

  // An independent reference for the totals: plain sums and counts.

  function SumOriginal(rs: seq<CompressionResult>): nat
  {
    if |rs| == 0 then 0 else rs[0].originalSize + SumOriginal(rs[1..])
  }

  function SumCompressed(rs: seq<CompressionResult>): nat
  {
    if |rs| == 0 then 0 else rs[0].compressedSize + SumCompressed(rs[1..])
  }

  function Count(rs: seq<CompressionResult>, s: CompressionStatus): nat
  {
    if |rs| == 0 then 0 else (if rs[0].status == s then 1 else 0) + Count(rs[1..], s)
  }

  function Reference(rs: seq<CompressionResult>): Totals
  {
    Totals(SumOriginal(rs), SumCompressed(rs), Count(rs, Success), Count(rs, Skipped), Count(rs, Error))
  }

  lemma {:induction false} FoldAddsReference(acc: Totals, rs: seq<CompressionResult>)
    ensures Fold(acc, rs) == Plus(acc, Reference(rs))
    decreases |rs|
  {
    if |rs| > 0 {
      FoldAddsReference(Step(acc, rs[0]), rs[1..]);
    }
  }

  lemma {:induction false} CountsCoverAll(rs: seq<CompressionResult>)
    ensures Count(rs, Success) + Count(rs, Skipped) + Count(rs, Error) == |rs|
  {
    if |rs| > 0 {
      CountsCoverAll(rs[1..]);
    }
  }

  /**
   * The fold computes the byte sums and the per-status counts, and the
   * three counters together count every result once.
   */
  lemma TallyIsReference(rs: seq<CompressionResult>)
    ensures Tally(rs) == Reference(rs)
    ensures Tally(rs).success + Tally(rs).skipped + Tally(rs).errors == |rs|
  {
    FoldAddsReference(Zero, rs);
    CountsCoverAll(rs);
  }

  lemma {:induction false} ReferenceAppend(a: seq<CompressionResult>, b: seq<CompressionResult>)
    ensures Reference(a + b) == Plus(Reference(a), Reference(b))
  {
    if |a| == 0 {
      assert a + b == b;
    } else {
      var ab := a + b;
      assert ab[0] == a[0] && ab[1..] == a[1..] + b;
      ReferenceAppend(a[1..], b);
      assert SumOriginal(ab) == a[0].originalSize + SumOriginal(a[1..] + b);
      assert SumCompressed(ab) == a[0].compressedSize + SumCompressed(a[1..] + b);
      assert forall s :: Count(ab, s) == (if a[0].status == s then 1 else 0) + Count(a[1..] + b, s);
    }
  }

  /** Removing one occurrence of `b[j]` from both sides of a permutation leaves a permutation. */
  lemma RemoveMatching(a: seq<CompressionResult>, b: seq<CompressionResult>, j: nat)
    requires multiset(a) == multiset(b) && |a| > 0 && j < |b| && b[j] == a[0]
    ensures multiset(a[1..]) == multiset(b[..j] + b[j + 1..])
  {
    var x := a[0];
    assert a == [x] + a[1..];
    assert b == b[..j] + ([x] + b[j + 1..]);
    assert multiset(a[1..]) == multiset(a) - multiset{x};
    assert multiset(b[..j] + b[j + 1..]) == multiset(b) - multiset{x};
  }

  lemma {:induction false} ReferencePermutation(a: seq<CompressionResult>, b: seq<CompressionResult>)
    requires multiset(a) == multiset(b)
    ensures Reference(a) == Reference(b)
    decreases |a|
  {
    if |a| == 0 {
      assert |b| == |multiset(b)| == 0;
    } else {
      var x := a[0];
      assert x in multiset(b) by { assert x in multiset(a); }
      var j :| 0 <= j < |b| && b[j] == x;
      var front, back := b[..j], b[j + 1..];
      RemoveMatching(a, b, j);
      ReferencePermutation(a[1..], front + back);
      assert a == [x] + a[1..];
      ReferenceAppend([x], a[1..]);
      assert b == front + ([x] + back);
      ReferenceAppend(front, [x] + back);
      ReferenceAppend([x], back);
      ReferenceAppend(front, back);
    }
  }

  /** The totals do not depend on the order of the results. */
  lemma TallyOrderIndependent(a: seq<CompressionResult>, b: seq<CompressionResult>)
    requires multiset(a) == multiset(b)
    ensures Tally(a) == Tally(b)
  {
    TallyIsReference(a);
    TallyIsReference(b);
    ReferencePermutation(a, b);
  }

  /** `u64::saturating_sub`: the bytes saved, zero when the output grew. */
  function Saved(original: nat, compressed: nat): (saved: nat)
    ensures saved <= original
    ensures saved + compressed >= original
    ensures saved == 0 || saved + compressed == original
  {
    if compressed <= original then original - compressed else 0
  }

  /** Saved bytes as a percentage of the original total; 0 when nothing was read. */
  function SavedPercent(saved: nat, original: nat): (p: real)
    ensures original == 0 ==> p == 0.0
    ensures 0.0 <= p
    ensures saved <= original ==> p <= 100.0
    ensures original > 0 ==> p * original as real == saved as real * 100.0
  {
    if original > 0 then
      var fraction := saved as real / original as real;
      assert fraction * original as real == saved as real;
      fraction * 100.0
    else 0.0
  }

  /** A file's size change as a percentage of its original size; 0 for an empty original. */
  function ChangePercent(original: nat, compressed: nat): (p: real)
    ensures original == 0 ==> p == 0.0
    ensures p >= -100.0
    ensures compressed <= original ==> p <= 0.0
    ensures compressed >= original ==> p >= 0.0
    ensures original > 0 ==> p * original as real == (compressed as real - original as real) * 100.0
  {
    if original > 0 then
      var fraction := (compressed as real - original as real) / original as real;
      assert fraction * original as real == compressed as real - original as real;
      fraction * 100.0
    else 0.0
  }

  /** One report event: a per-file block, or the closing summary. */
  datatype Event =
    | PerFile(index: nat, result: CompressionResult, changePercent: real)
    | Summary(fileCount: nat, totals: Totals, saved: nat, savedPercent: real)

  /** Whether a result with status `s` gets a block at verbosity `verbose`. */
  predicate Shown(s: CompressionStatus, verbose: u8)
    ensures Shown(s, verbose) ==> verbose >= 2
    ensures verbose == 2 ==> (Shown(s, verbose) <==> s != Success)
    ensures verbose >= 3 ==> Shown(s, verbose)
  {
    verbose > 1 && !(verbose < 3 && s == Success)
  }

  function Block(i: nat, r: CompressionResult): Event
  {
    PerFile(i, r, ChangePercent(r.originalSize, r.compressedSize))
  }

  /** The per-file blocks, in input order. */
  function PerFileEvents(rs: seq<CompressionResult>, verbose: u8): (evs: seq<Event>)
    ensures |evs| <= |rs|
    ensures forall k :: 0 <= k < |evs| ==>
      evs[k].PerFile? && evs[k].index < |rs| && evs[k] == Block(evs[k].index, rs[evs[k].index])
    ensures forall j, k :: 0 <= j < k < |evs| ==> evs[j].index < evs[k].index
    decreases |rs|
  {
    if |rs| == 0 then []
    else
      var n := |rs| - 1;
      PerFileEvents(rs[..n], verbose) + (if Shown(rs[n].status, verbose) then [Block(n, rs[n])] else [])
  }

  function SummaryOf(rs: seq<CompressionResult>): Event
  {
    var t := Tally(rs);
    var saved := Saved(t.originalSize, t.compressedSize);
    Summary(|rs|, t, saved, SavedPercent(saved, t.originalSize))
  }

  function SummaryEvents(rs: seq<CompressionResult>, verbose: u8): seq<Event>
  {
    if verbose > 0 then [SummaryOf(rs)] else []
  }

  /** Everything the recap emits for `rs` at verbosity `verbose`. */
  function RecapEvents(rs: seq<CompressionResult>, verbose: u8): (evs: seq<Event>)
    ensures |rs| == 0 ==> evs == []
    ensures |evs| <= |rs| + 1
    ensures |rs| > 0 && verbose > 0 ==> |evs| > 0 && evs[|evs| - 1] == SummaryOf(rs)
  {
    if |rs| == 0 then [] else PerFileEvents(rs, verbose) + SummaryEvents(rs, verbose)
  }

  /** The recap emits a block for the result at position `i`. */
  predicate Emits(evs: seq<Event>, i: nat)
  {
    exists k :: 0 <= k < |evs| && evs[k].PerFile? && evs[k].index == i
  }

  lemma {:induction false} PerFileMembership(rs: seq<CompressionResult>, verbose: u8, i: nat)
    requires i < |rs|
    ensures Emits(PerFileEvents(rs, verbose), i) <==> Shown(rs[i].status, verbose)
    decreases |rs|
  {
    var n := |rs| - 1;
    var prefix := PerFileEvents(rs[..n], verbose);
    var tail := if Shown(rs[n].status, verbose) then [Block(n, rs[n])] else [];
    var evs := prefix + tail;
    assert PerFileEvents(rs, verbose) == evs;
    if i == n {
      assert !Emits(prefix, i);
      if Shown(rs[n].status, verbose) {
        assert evs[|prefix|].index == i;
      } else {
        assert evs == prefix;
      }
    } else {
      PerFileMembership(rs[..n], verbose, i);
      assert rs[..n][i] == rs[i];
      if Emits(prefix, i) {
        var k :| 0 <= k < |prefix| && prefix[k].PerFile? && prefix[k].index == i;
        assert evs[k] == prefix[k];
      }
      if Emits(evs, i) {
        var k :| 0 <= k < |evs| && evs[k].PerFile? && evs[k].index == i;
        assert k < |prefix|;
        assert prefix[k] == evs[k];
      }
    }
  }

  /** Below level 2 there are no per-file blocks. */
  lemma {:induction false} SilentBelowTwo(rs: seq<CompressionResult>, verbose: u8)
    requires verbose <= 1
    ensures PerFileEvents(rs, verbose) == []
    decreases |rs|
  {
    if |rs| > 0 {
      SilentBelowTwo(rs[..|rs| - 1], verbose);
    }
  }

  /** The summary events carry no per-file block. */
  lemma EmitsIgnoresSummary(rs: seq<CompressionResult>, verbose: u8, i: nat)
    requires |rs| > 0
    ensures Emits(RecapEvents(rs, verbose), i) <==> Emits(PerFileEvents(rs, verbose), i)
  {
    var pf := PerFileEvents(rs, verbose);
    var evs := RecapEvents(rs, verbose);
    assert evs == pf + SummaryEvents(rs, verbose);
    if Emits(pf, i) {
      var k :| 0 <= k < |pf| && pf[k].PerFile? && pf[k].index == i;
      assert evs[k] == pf[k];
    }
    if Emits(evs, i) {
      var k :| 0 <= k < |evs| && evs[k].PerFile? && evs[k].index == i;
      assert k < |pf|;
      assert pf[k] == evs[k];
    }
  }

  /**
   * The verbosity tiers: nothing per file below 2; skipped and failed
   * files at 2; every file from 3 on.
   */
  lemma RecapTiers(rs: seq<CompressionResult>, verbose: u8, i: nat)
    requires i < |rs|
    ensures verbose <= 1 ==> !Emits(RecapEvents(rs, verbose), i)
    ensures verbose == 2 ==> (Emits(RecapEvents(rs, verbose), i) <==> rs[i].status in {Skipped, Error})
    ensures verbose >= 3 ==> Emits(RecapEvents(rs, verbose), i)
  {
    EmitsIgnoresSummary(rs, verbose, i);
    PerFileMembership(rs, verbose, i);
  }

  /** A higher verbosity shows every block a lower one shows. */
  lemma RecapTiersMonotone(rs: seq<CompressionResult>, low: u8, high: u8, i: nat)
    requires low <= high
    requires Emits(RecapEvents(rs, low), i)
    ensures Emits(RecapEvents(rs, high), i)
  {
    var evs := RecapEvents(rs, low);
    var k :| 0 <= k < |evs| && evs[k].PerFile? && evs[k].index == i;
    assert |rs| > 0;
    EmitsIgnoresSummary(rs, low, i);
    EmitsIgnoresSummary(rs, high, i);
    PerFileMembership(rs, low, i);
    PerFileMembership(rs, high, i);
  }

  /** No output at all for an empty result list, or at level 0. */
  lemma RecapSilent(rs: seq<CompressionResult>, verbose: u8)
    requires |rs| == 0 || verbose == 0
    ensures RecapEvents(rs, verbose) == []
  {
    if |rs| > 0 {
      SilentBelowTwo(rs, verbose);
    }
  }

  /** The summary is emitted once, as the last event, exactly when verbosity is positive and input non-empty. */
  lemma SummaryOnceAtEnd(rs: seq<CompressionResult>, verbose: u8)
    ensures forall k :: 0 <= k < |RecapEvents(rs, verbose)| ==>
      (RecapEvents(rs, verbose)[k].Summary? <==> verbose > 0 && k == |RecapEvents(rs, verbose)| - 1)
    ensures (exists k :: 0 <= k < |RecapEvents(rs, verbose)| && RecapEvents(rs, verbose)[k].Summary?)
      <==> (verbose > 0 && |rs| > 0)
  {
    var evs := RecapEvents(rs, verbose);
    if |rs| > 0 {
      var pf := PerFileEvents(rs, verbose);
      assert evs == pf + SummaryEvents(rs, verbose);
      forall k | 0 <= k < |evs|
        ensures evs[k].Summary? <==> verbose > 0 && k == |evs| - 1
      {
        if k < |pf| {
          assert evs[k] == pf[k];
        }
      }
      if verbose > 0 {
        assert evs[|evs| - 1].Summary?;
      }
    }
  }

  /**
   * The summary's figures: the file count, the totals as plain sums and
   * counts, the saved bytes and percentage within their bounds.
   */
  lemma SummaryFigures(rs: seq<CompressionResult>)
    ensures SummaryOf(rs).fileCount == |rs|
    ensures SummaryOf(rs).totals == Reference(rs)
    ensures SummaryOf(rs).totals.success + SummaryOf(rs).totals.skipped + SummaryOf(rs).totals.errors == |rs|
    ensures SummaryOf(rs).saved <= SummaryOf(rs).totals.originalSize
    ensures 0.0 <= SummaryOf(rs).savedPercent <= 100.0
    ensures SumOriginal(rs) == 0 ==> SummaryOf(rs).savedPercent == 0.0
  {
    TallyIsReference(rs);
  }

  /**
   * The summary's saved figure is the saturating difference of the byte
   * sums, and its percentage is saved / total × 100 for a positive total.
   */
  lemma SummaryPercentValue(rs: seq<CompressionResult>)
    ensures SummaryOf(rs).saved == Saved(SumOriginal(rs), SumCompressed(rs))
    ensures SumOriginal(rs) > 0 ==>
      SummaryOf(rs).savedPercent * SumOriginal(rs) as real == SummaryOf(rs).saved as real * 100.0
  {
    TallyIsReference(rs);
    var total := SumOriginal(rs);
    var t := Tally(rs);
    assert t.originalSize == total;
    var saved := Saved(t.originalSize, t.compressedSize);
    var p := SavedPercent(saved, total);
    assert SummaryOf(rs).saved == saved && SummaryOf(rs).savedPercent == p;
  }

  /** Reordering the results leaves the summary unchanged. */
  lemma SummaryOrderIndependent(a: seq<CompressionResult>, b: seq<CompressionResult>, verbose: u8)
    requires multiset(a) == multiset(b)
    ensures SummaryEvents(a, verbose) == SummaryEvents(b, verbose)
  {
    TallyOrderIndependent(a, b);
    assert |a| == |multiset(a)| == |b|;
  }

  /** `write_recap_message`: emits the blocks one by one, then the summary. */
  method WriteRecapMessage(results: seq<CompressionResult>, verbose: u8) returns (events: seq<Event>)
    ensures events == RecapEvents(results, verbose)
  {
    events := [];
    if |results| == 0 {
      return;
    }

    var stats := Tally(results);

    if verbose > 1 {
      var i := 0;
      while i < |results|
        invariant 0 <= i <= |results|
        invariant events == PerFileEvents(results[..i], verbose)
      {
        var result := results[i];
        assert results[..i + 1][..i] == results[..i];
        if verbose < 3 && result.status == Success {
          i := i + 1;
          continue;
        }
        var savingsPercent := ChangePercent(result.originalSize, result.compressedSize);
        events := events + [PerFile(i, result, savingsPercent)];
        i := i + 1;
      }
      assert results[..|results|] == results;
    } else {
      SilentBelowTwo(results, verbose);
    }

    if verbose > 0 {
      var totalSaved := Saved(stats.originalSize, stats.compressedSize);
      events := events + [Summary(|results|, stats, totalSaved, SavedPercent(totalSaved, stats.originalSize))];
    }
  }
}
