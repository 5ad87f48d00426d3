/** Fold numbers against reported fold bounds, and the conservation of a journal over its parts. */
module WalkForwardLaws {
  import opened Decimals
  import opened Metrics
  import opened Times
  import opened Trades
  import opened WalkForward

  // ---------------------------------------------------------------- the fold of an entry

  /** The fold an entry belongs to: the offset as a fraction of the window, times the number of folds. */
  function TrueFold(elapsed: int, duration: int, folds: int): int
    requires duration > 0
  {
    elapsed * folds / duration
  }

  lemma WrapIsExact(x: int)
    requires -TWO63 <= x < TWO63
    ensures Wrap64(x) == x
  {
  }

  lemma WrapLoses(x: int)
    requires TWO63 <= x
    ensures Wrap64(x) <= x - TWO64
  {
  }

  lemma QuotientMono(x: int, y: int, d: int)
    requires d > 0 && x <= y
    ensures x / d <= y / d
  {
    QuotientBounds(x, d);
    QuotientBounds(y, d);
    if y / d < x / d {
      MulMono(y / d + 1, x / d, d);
    }
  }

  lemma QuotientDrops(x: int, y: int, d: int)
    requires d > 0 && 0 <= x && x + d <= y
    ensures x / d < y / d
  {
    QuotientBounds(x, d);
    QuotientBounds(y, d);
    if y / d <= x / d {
      MulMono(y / d, x / d, d);
    }
  }

  lemma TrueFoldRange(elapsed: int, duration: int, folds: int)
    requires 0 <= elapsed < duration && 1 <= folds
    ensures 0 <= TrueFold(elapsed, duration, folds) < folds
  {
    var x := elapsed * folds;
    MulMono(0, elapsed, folds);
    MulMono(elapsed + 1, duration, folds);
    QuotientBounds(x, duration);
    if TrueFold(elapsed, duration, folds) < 0 {
      MulMono(TrueFold(elapsed, duration, folds) + 1, 0, duration);
    }
    if TrueFold(elapsed, duration, folds) >= folds {
      MulMono(folds, TrueFold(elapsed, duration, folds), duration);
    }
  }

  /** The quotient of a wrapped product: exact while the product fits, too small as soon as it does not. */
  lemma WrappedQuotient(x: int, d: int)
    requires 0 <= x && 0 < d < TWO63
    ensures x < TWO63 ==> TruncDiv(Wrap64(x), d) == x / d
    ensures TWO63 <= x ==> TruncDiv(Wrap64(x), d) < x / d && 0 < x / d
  {
    if x < TWO63 {
      WrapIsExact(x);
    } else {
      WrapLoses(x);
      var wrapped := Wrap64(x);
      hide Wrap64;
      QuotientUnique(0, d, 0);
      QuotientDrops(0, x, d);
      if wrapped < 0 {
        QuotientMono(0, -wrapped, d);
      } else {
        QuotientDrops(wrapped, x, d);
      }
    }
  }

  /** An entry in the window is put into its true fold exactly when its offset times the number of folds fits
      into 64 bits. When it does not, the entry lands in an earlier fold. */
  lemma FoldIndexExactIff(entry: int, start: int, end: int, folds: int)
    requires start <= entry < end && end - start < TWO63 && 1 <= folds
    ensures var truth := TrueFold(entry - start, end - start, folds);
      && 0 <= FoldIndex(entry, start, end, folds) <= truth < folds
      && (FoldIndex(entry, start, end, folds) == truth <==> (entry - start) * folds < TWO63)
  {
    var elapsed, duration := entry - start, end - start;
    MulMono(0, elapsed, folds);
    TrueFoldRange(elapsed, duration, folds);
    assert TimeSub(end, start) == duration && TimeSub(entry, start) == elapsed;
    hide TruncDiv, Wrap64, TimeSub;
    WrappedQuotient(elapsed * folds, duration);
  }

  // ---------------------------------------------------------------- bounds

  /** Where fold i starts when nothing wraps around. */
  function Cut(start: int, duration: int, folds: int, i: int): int
    requires 1 <= folds
  {
    start + duration * i / folds
  }

  /** A window whose length is a 64-bit duration. */
  predicate Window(start: int, end: int, folds: int) {
    start < end && end - start < TWO63 && 1 <= folds
  }

  /** No product for an entry of the window wraps around. */
  predicate EntriesFit(start: int, end: int, folds: int) {
    (end - start - 1) * folds < TWO63
  }

  /** No product for the bounds of fold i wraps around. The last fold ends with the window, without a product. */
  predicate BoundsFit(start: int, end: int, folds: int, i: int) {
    0 <= i < folds && (end - start) * (if i + 1 < folds then i + 1 else i) < TWO63
  }

  lemma BoundsAreCuts(start: int, end: int, folds: int, i: int)
    requires Window(start, end, folds) && BoundsFit(start, end, folds, i)
    ensures FoldBounds(start, end, folds, i)
         == (Cut(start, end - start, folds, i), Cut(start, end - start, folds, i + 1))
  {
    var duration := end - start;
    assert duration * (i + 1) == duration * i + duration;
    MulMono(0, i, duration);
    assert i * duration == duration * i;
    WrapIsExact(duration * i);
    if i == folds - 1 {
      QuotientUnique(duration * folds, folds, duration);
    } else {
      WrapIsExact(duration * (i + 1));
    }
  }

  lemma CutMono(start: int, duration: int, folds: int, i: int, j: int)
    requires 1 <= folds && 0 < duration && i <= j
    ensures Cut(start, duration, folds, i) <= Cut(start, duration, folds, j)
  {
    MulMono(i, j, duration);
    assert duration * i == i * duration && duration * j == j * duration;
    QuotientMono(duration * i, duration * j, folds);
  }

  lemma OrderedBounds(start: int, end: int, folds: int, i: int)
    requires Window(start, end, folds) && BoundsFit(start, end, folds, i)
    ensures FoldBounds(start, end, folds, i).0 <= FoldBounds(start, end, folds, i).1
  {
    hide FoldBounds, Cut;
    BoundsAreCuts(start, end, folds, i);
    CutMono(start, end - start, folds, i, i + 1);
  }

  lemma WrapTurnsNegative(x: int, d: int)
    requires TWO63 <= x < TWO64 && 0 < d
    ensures TruncDiv(Wrap64(x), d) <= 0
  {
    assert Wrap64(x) == x - TWO64;
    QuotientMono(0, TWO64 - x, d);
    QuotientUnique(0, d, 0);
  }

  /** The end of a fold whose product has just wrapped around is no later than the start of the window. */
  lemma EndTurnsBack(start: int, end: int, folds: int, i: int)
    requires Window(start, end, folds) && 0 <= i < folds - 1
    requires (end - start) * i < TWO63 <= (end - start) * (i + 1)
    ensures FoldBounds(start, end, folds, i).1 <= start && 1 <= i
  {
    var duration := end - start;
    assert duration * (i + 1) == duration * i + duration;
    WrapTurnsNegative(duration * (i + 1), folds);
    hide Wrap64, TruncDiv;
    assert i == 0 ==> duration * i == 0;
  }

  /** The first fold whose end wraps around. */
  lemma {:induction false} FirstWrap(duration: int, n: int) returns (i: int)
    requires 0 < duration < TWO63 && 1 <= n && TWO63 <= duration * n
    ensures 0 <= i < n && duration * i < TWO63 <= duration * (i + 1)
    decreases n
  {
    if duration * (n - 1) < TWO63 {
      i := n - 1;
    } else {
      assert n != 1;
      i := FirstWrap(duration, n - 1);
    }
  }

  lemma WrappedBoundsCross(start: int, end: int, folds: int)
    requires Window(start, end, folds) && folds <= TWO63 / 2 && TWO63 <= (end - start) * (folds - 1)
    ensures exists i :: 0 <= i < folds && FoldBounds(start, end, folds, i).0 > FoldBounds(start, end, folds, i).1
  {
    var duration := end - start;
    assert folds == 1 ==> duration * (folds - 1) == 0;
    var i := FirstWrap(duration, folds - 1);
    EndTurnsBack(start, end, folds, i);
    MulMono(1, i, duration);
    assert duration * (i + 1) == duration * i + duration && i * duration == duration * i;
    StartMovesOn(start, end, folds, i);
    hide FoldBounds;
  }

  lemma StartMovesOn(start: int, end: int, folds: int, i: int)
    requires Window(start, end, folds) && folds <= (end - start) * i < TWO63
    ensures start < FoldBounds(start, end, folds, i).0
  {
    WrapIsExact((end - start) * i);
    BelowQuotient(1, (end - start) * i, folds);
    hide Wrap64;
  }

  /** The reported bounds start and end with the window and leave no gap, and they tile it, no fold ending
      before it starts, exactly when no product for an inner bound wraps around. */
  lemma BoundsTileTheWindowIff(start: int, end: int, folds: int)
    requires Window(start, end, folds) && folds <= TWO63 / 2
    ensures FoldBounds(start, end, folds, 0).0 == start && FoldBounds(start, end, folds, folds - 1).1 == end
    ensures forall i, j | 0 <= i && j == i + 1 < folds ::
      FoldBounds(start, end, folds, i).1 == FoldBounds(start, end, folds, j).0
    ensures (forall i | 0 <= i < folds :: FoldBounds(start, end, folds, i).0 <= FoldBounds(start, end, folds, i).1)
       <==> (end - start) * (folds - 1) < TWO63
  {
    var duration := end - start;
    assert FoldBounds(start, end, folds, 0).0 == start by {
      assert duration * 0 == 0;
      QuotientUnique(0, folds, 0);
    }
    hide Wrap64, TruncDiv;
    assert forall i, j | 0 <= i && j == i + 1 < folds ::
      FoldBounds(start, end, folds, i).1 == FoldBounds(start, end, folds, j).0;
    assert FoldBounds(start, end, folds, folds - 1).1 == end;
    hide FoldBounds;
    if duration * (folds - 1) < TWO63 {
      forall i | 0 <= i < folds ensures FoldBounds(start, end, folds, i).0 <= FoldBounds(start, end, folds, i).1 {
        FitBelow(duration, i, folds);
        OrderedBounds(start, end, folds, i);
      }
    } else {
      WrappedBoundsCross(start, end, folds);
    }
  }

  lemma FitBelow(duration: int, i: int, folds: int)
    requires 0 < duration && 0 <= i < folds && duration * (folds - 1) < TWO63
    ensures duration * (if i + 1 < folds then i + 1 else i) < TWO63
  {
    var n := if i + 1 < folds then i + 1 else i;
    MulMono(n, folds - 1, duration);
    assert duration * n == n * duration && duration * (folds - 1) == (folds - 1) * duration;
  }

  /** An offset before a product's quotient, stated without the quotient. */
  lemma BelowQuotient(e: int, x: int, d: int)
    requires d > 0
    ensures e < x / d <==> (e + 1) * d <= x
    ensures e <= x / d <==> e * d <= x
    ensures x / d <= e <==> x < (e + 1) * d
  {
    QuotientBounds(x, d);
    var q := x / d;
    if e + 1 <= q {
      MulMono(e + 1, q, d);
    } else {
      MulMono(q + 1, e + 1, d);
    }
    if e <= q {
      MulMono(e, q, d);
    } else {
      MulMono(q + 1, e, d);
    }
    if q <= e {
      MulMono(q + 1, e + 1, d);
    } else {
      MulMono(e + 1, q, d);
    }
  }

  lemma FoldOfProducts(e: int, duration: int, folds: int, i: int)
    requires 0 <= e < duration && 1 <= folds
    ensures TrueFold(e, duration, folds) == i <==> i * duration <= e * folds < (i + 1) * duration
  {
    BelowQuotient(i, e * folds, duration);
  }

  /** The entry offset e lies between the bounds of its fold, the upper one included. */
  lemma CutsAroundEntry(e: int, duration: int, folds: int)
    requires 0 <= e < duration && 1 <= folds
    ensures var i := TrueFold(e, duration, folds);
      Cut(0, duration, folds, i) <= e <= Cut(0, duration, folds, i + 1)
  {
    var i := TrueFold(e, duration, folds);
    FoldOfProducts(e, duration, folds, i);
    BelowQuotient(e, duration * (i + 1), folds);
    BelowQuotient(e, duration * i, folds);
    assert duration * i == i * duration && duration * (i + 1) == (i + 1) * duration;
    assert (e + 1) * folds == e * folds + folds;
  }

  /** While nothing wraps around, an assigned entry is never before the reported start of its fold nor after
      its reported end. */
  lemma EntryWithinBounds(entry: int, start: int, end: int, folds: int)
    requires Window(start, end, folds) && start <= entry < end && (entry - start) * folds < TWO63
    requires BoundsFit(start, end, folds, TrueFold(entry - start, end - start, folds))
    ensures var i := FoldIndex(entry, start, end, folds);
      && 0 <= i < folds && i == TrueFold(entry - start, end - start, folds)
      && FoldBounds(start, end, folds, i).0 <= entry <= FoldBounds(start, end, folds, i).1
  {
    var e, duration := entry - start, end - start;
    FoldIndexExactIff(entry, start, end, folds);
    hide FoldIndex, FoldBounds;
    BoundsAreCuts(start, end, folds, TrueFold(e, duration, folds));
    CutsAroundEntry(e, duration, folds);
  }

  /** The products of an index that the program computes never pass 64 bits: an index times the duration is at
      most the wrapped product it was divided from. */
  lemma IndexTimesDuration(entry: int, start: int, end: int, folds: int)
    requires Window(start, end, folds) && start <= entry < end
    ensures 0 <= (end - start) * FoldIndex(entry, start, end, folds) < TWO63
  {
    FoldIndexExactIff(entry, start, end, folds);
    var wrapped, duration := Wrap64((entry - start) * folds), end - start;
    assert TimeSub(end, start) == duration && TimeSub(entry, start) == entry - start;
    assert wrapped < TWO63;
    var i := FoldIndex(entry, start, end, folds);
    assert i == 0 || i <= TruncDiv(wrapped, duration);
    hide FoldIndex, Wrap64, TimeSub;
    MulMono(0, i, duration);
    if i == 0 {
      assert duration * i == 0;
    } else {
      assert 0 <= wrapped by {
        if wrapped < 0 {
          QuotientMono(0, -wrapped, duration);
          QuotientUnique(0, duration, 0);
        }
      }
      QuotientBounds(wrapped, duration);
      MulMono(i, wrapped / duration, duration);
    }
  }

  /** Once its product wraps around, an entry lies after the reported end of the fold it is put into. */
  lemma MisplacedAfterEnd(entry: int, start: int, end: int, folds: int)
    requires Window(start, end, folds) && start <= entry < end && TWO63 <= (entry - start) * folds
    ensures FoldBounds(start, end, folds, FoldIndex(entry, start, end, folds)).1 < entry
  {
    var e, duration := entry - start, end - start;
    assert e != 0;
    FoldIndexExactIff(entry, start, end, folds);
    IndexTimesDuration(entry, start, end, folds);
    hide FoldIndex, FoldBounds, TrueFold;
    var i := FoldIndex(entry, start, end, folds);
    if duration * (i + 1) < TWO63 {
      BoundsAreCuts(start, end, folds, i);
      BelowQuotient(e, duration * (i + 1), folds);
    } else {
      EndTurnsBack(start, end, folds, i);
    }
  }

  /** An entry lies within the reported bounds of the fold it is put into, exactly when neither its own product
      nor those of the bounds of its true fold wrap around. */
  lemma EntryWithinBoundsIff(entry: int, start: int, end: int, folds: int)
    requires Window(start, end, folds) && start <= entry < end
    ensures var (i, truth) := (FoldIndex(entry, start, end, folds), TrueFold(entry - start, end - start, folds));
      FoldBounds(start, end, folds, i).0 <= entry <= FoldBounds(start, end, folds, i).1
      <==> (entry - start) * folds < TWO63 && BoundsFit(start, end, folds, truth)
  {
    var e, duration := entry - start, end - start;
    hide FoldBounds, FoldIndex;
    FoldIndexExactIff(entry, start, end, folds);
    IndexTimesDuration(entry, start, end, folds);
    var truth := TrueFold(e, duration, folds);
    hide TrueFold;
    if e * folds >= TWO63 {
      MisplacedAfterEnd(entry, start, end, folds);
    } else if BoundsFit(start, end, folds, truth) {
      EntryWithinBounds(entry, start, end, folds);
    } else {
      EndTurnsBack(start, end, folds, truth);
      FirstEntryInFirstFold(duration, folds);
    }
  }

  lemma FirstEntryInFirstFold(duration: int, folds: int)
    requires 0 < duration
    ensures TrueFold(0, duration, folds) == 0
  {
    QuotientUnique(0, duration, 0);
  }

  // ---------------------------------------------------------------- when an entry can sit on the end of its fold

  /** Every entry offset of fold i lies strictly before the fold's reported end. */
  ghost predicate HonestFold(start: int, end: int, folds: int, i: int)
    requires start < end && 1 <= folds
  {
    forall entry | start <= entry < end && FoldIndex(entry, start, end, folds) == i ::
      entry < FoldBounds(start, end, folds, i).1
  }

  /** What is left over of the i-th cut, in parts of a nanosecond. */
  function Rest(duration: int, folds: int, i: int): int
    requires 1 <= folds
  {
    (i + 1) * duration % folds
  }

  lemma CutProduct(duration: int, folds: int, i: int)
    requires 1 <= folds
    ensures Cut(0, duration, folds, i + 1) * folds == (i + 1) * duration - Rest(duration, folds, i)
  {
    var x := duration * (i + 1);
    assert x == (i + 1) * duration;
    assert folds * (x / folds) == (x / folds) * folds;
  }

  lemma OffsetOnCut(e: int, duration: int, folds: int, i: int)
    requires 0 <= e < duration && 1 <= folds && TrueFold(e, duration, folds) == i
    ensures e == Cut(0, duration, folds, i + 1) ==> 0 < Rest(duration, folds, i) <= duration
  {
    FoldOfProducts(e, duration, folds, i);
    CutProduct(duration, folds, i);
    hide Rest, Cut;
    assert (i + 1) * duration == i * duration + duration;
  }

  lemma CutIsAnEntry(duration: int, folds: int, i: int)
    requires 1 <= folds && 1 <= duration && 0 <= i < folds && 0 < Rest(duration, folds, i) <= duration
    ensures var e := Cut(0, duration, folds, i + 1);
      0 <= e < duration && TrueFold(e, duration, folds) == i
  {
    CutProduct(duration, folds, i);
    var e := Cut(0, duration, folds, i + 1);
    hide Rest, Cut;
    assert (i + 1) * duration == i * duration + duration;
    MulMono(0, i, duration);
    MulMono(i + 1, folds, duration);
    assert folds * duration == duration * folds;
    if e < 0 {
      MulMono(e + 1, 0, folds);
    }
    if e >= duration {
      MulMono(duration, e, folds);
    }
    FoldOfProducts(e, duration, folds, i);
  }

  /** A fold reports an end that all its entries lie before, exactly when the cut leaves no rest, or a rest
      longer than the window. Otherwise the entry on the truncated end belongs to the fold before it. With as
      many nanoseconds as folds no rest is longer than the window, and the folds have to divide (i + 1) times
      the window. */
  lemma HonestFoldIff(start: int, end: int, folds: int, i: int)
    requires Window(start, end, folds) && EntriesFit(start, end, folds) && BoundsFit(start, end, folds, i)
    ensures HonestFold(start, end, folds, i)
       <==> Rest(end - start, folds, i) == 0 || Rest(end - start, folds, i) > end - start
    ensures folds <= end - start ==> Rest(end - start, folds, i) <= end - start
  {
    var duration := end - start;
    assert 0 <= Rest(duration, folds, i) < folds;
    BoundsAreCuts(start, end, folds, i);
    hide FoldBounds, FoldIndex, Rest;
    var cut := Cut(0, duration, folds, i + 1);
    assert FoldBounds(start, end, folds, i).1 == start + cut;
    hide Cut;
    if 0 < Rest(duration, folds, i) <= duration {
      CutIsAnEntry(duration, folds, i);
      EntryFits(cut, start, end, folds);
      FoldIndexExactIff(start + cut, start, end, folds);
      assert !(start + cut < FoldBounds(start, end, folds, i).1);
    } else {
      forall entry | start <= entry < end && FoldIndex(entry, start, end, folds) == i
        ensures entry < FoldBounds(start, end, folds, i).1
      {
        EntryFits(entry - start, start, end, folds);
        FoldIndexExactIff(entry, start, end, folds);
        EntryWithinBounds(entry, start, end, folds);
        OffsetOnCut(entry - start, duration, folds, i);
      }
    }
  }

  lemma EntryFits(e: int, start: int, end: int, folds: int)
    requires EntriesFit(start, end, folds) && 0 <= e < end - start && 1 <= folds
    ensures e * folds < TWO63
  {
    MulMono(e, end - start - 1, folds);
  }

  lemma MultipleHasNoRest(i: int, duration: int, folds: int)
    requires 1 <= folds && duration % folds == 0
    ensures Rest(duration, folds, i) == 0
  {
    var q := duration / folds;
    assert duration == folds * q;
    assert (i + 1) * duration == folds * ((i + 1) * q);
    QuotientUnique(folds * ((i + 1) * q), folds, (i + 1) * q);
  }

  /** Where the folds divide the window and its entries fit, the bounds fit too. */
  lemma DividedBoundsFit(start: int, end: int, folds: int, i: int)
    requires Window(start, end, folds) && EntriesFit(start, end, folds) && folds <= end - start && 0 <= i < folds
    ensures BoundsFit(start, end, folds, i)
  {
    var duration := end - start;
    assert duration * (folds - 1) == (duration - 1) * folds + folds - duration;
    FitBelow(duration, i, folds);
  }

  lemma MisplacedIsDishonest(start: int, end: int, folds: int) returns (i: int)
    requires Window(start, end, folds) && !EntriesFit(start, end, folds)
    ensures 0 <= i < folds && !HonestFold(start, end, folds, i)
  {
    hide FoldIndex, FoldBounds, TrueFold;
    i := FoldIndex(end - 1, start, end, folds);
    MisplacedAfterEnd(end - 1, start, end, folds);
    FoldIndexExactIff(end - 1, start, end, folds);
  }

  lemma UnevenIsDishonest(start: int, end: int, folds: int)
    requires Window(start, end, folds) && EntriesFit(start, end, folds)
    requires 2 <= folds && (end - start) % folds != 0
    ensures !HonestFold(start, end, folds, 0)
  {
    var duration := end - start;
    assert Rest(duration, folds, 0) == duration % folds;
    RestIsPart(duration, folds);
    hide HonestFold, Rest, EntriesFit;
    assert duration * 1 == duration;
    HonestFoldIff(start, end, folds, 0);
  }

  lemma RestIsPart(duration: int, folds: int)
    requires 1 <= folds && 0 <= duration
    ensures 0 <= duration % folds <= duration
    ensures 0 < duration < folds ==> duration % folds != 0
  {
    if duration < folds {
      QuotientUnique(duration, folds, 0);
    }
  }

  /** All folds report ends that agree with the assignment exactly when the folds divide the window evenly and
      no product for an entry wraps around. */
  lemma AllFoldsHonestIff(start: int, end: int, folds: int)
    requires Window(start, end, folds) && 2 <= folds
    ensures (forall i | 0 <= i < folds :: HonestFold(start, end, folds, i))
       <==> (end - start) % folds == 0 && EntriesFit(start, end, folds)
  {
    hide HonestFold, EntriesFit, Rest;
    var duration := end - start;
    if !EntriesFit(start, end, folds) {
      var i := MisplacedIsDishonest(start, end, folds);
      assert !HonestFold(start, end, folds, i);
    } else if duration % folds == 0 {
      RestIsPart(duration, folds);
      forall i | 0 <= i < folds ensures HonestFold(start, end, folds, i) {
        DividedBoundsFit(start, end, folds, i);
        MultipleHasNoRest(i, duration, folds);
        HonestFoldIff(start, end, folds, i);
      }
    } else {
      UnevenIsDishonest(start, end, folds);
    }
  }

  lemma GrainProducts(k: int, span: int, g: int, folds: int, i: int)
    requires 1 <= folds <= g && (k * g) * folds < (i + 1) * (span * g)
    ensures (k * g + 1) * folds <= (i + 1) * (span * g)
  {
    assert (k * g) * folds == (k * folds) * g;
    assert (i + 1) * (span * g) == ((i + 1) * span) * g;
    if k * folds >= (i + 1) * span {
      MulMono((i + 1) * span, k * folds, g);
    }
    MulMono(k * folds + 1, (i + 1) * span, g);
    assert (k * folds + 1) * g == (k * folds) * g + g;
    assert (k * g + 1) * folds == (k * g) * folds + folds;
  }

  lemma GrainedOffset(e: int, duration: int, folds: int, grain: int, i: int)
    requires 1 <= folds <= grain && duration % grain == 0 && e % grain == 0
    requires e * folds < (i + 1) * duration
    ensures (e + 1) * folds <= (i + 1) * duration
  {
    var k, span := e / grain, duration / grain;
    assert e == k * grain && duration == span * grain;
    GrainProducts(k, span, grain, folds, i);
  }

  /** Journals are kept on a time grid. When window and entry are whole multiples of a grain that is at least as
      long as the number of folds, the entry lies strictly before the end of its fold, whatever the division
      of the window leaves over. */
  lemma GrainedEntryBeforeEnd(entry: int, start: int, end: int, folds: int, grain: int)
    requires Window(start, end, folds) && start <= entry < end && folds <= grain
    requires (end - start) % grain == 0 && (entry - start) % grain == 0
    requires (entry - start) * folds < TWO63
    requires BoundsFit(start, end, folds, TrueFold(entry - start, end - start, folds))
    ensures entry < FoldBounds(start, end, folds, FoldIndex(entry, start, end, folds)).1
  {
    hide FoldBounds, FoldIndex, TrueFold;
    var e, duration := entry - start, end - start;
    EntryWithinBounds(entry, start, end, folds);
    var i := TrueFold(e, duration, folds);
    BoundsAreCuts(start, end, folds, i);
    FoldOfProducts(e, duration, folds, i);
    GrainedOffset(e, duration, folds, grain, i);
    assert duration * (i + 1) == (i + 1) * duration;
    BelowQuotient(e, duration * (i + 1), folds);
  }

  /** A window of ten nanoseconds in three folds: the entry at offset 3 is counted in the first fold, which is
      reported as ending at 3. */
  lemma EntryOnReportedEnd()
    ensures FoldIndex(103, 100, 110, 3) == 0 && FoldBounds(100, 110, 3, 0) == (100, 103)
  {
  }

  // ---------------------------------------------------------------- conservation

  function SumOfParts(trades: seq<RoundTrip>, keys: seq<int>, n: int): Tally
    requires |keys| == |trades| && 0 <= n
    decreases n
  {
    if n == 0 then NOTHING else Add(SumOfParts(trades, keys, n - 1), TallyAll(Part(trades, keys, n - 1)))
  }

  /** The parts one after the other. */
  function Joined(trades: seq<RoundTrip>, keys: seq<int>, n: int): seq<RoundTrip>
    requires |keys| == |trades| && 0 <= n
    decreases n
  {
    if n == 0 then [] else Joined(trades, keys, n - 1) + Part(trades, keys, n - 1)
  }

  lemma TallyAppend(trades: seq<RoundTrip>, trade: RoundTrip)
    ensures TallyAll(trades + [trade]) == Add(TallyAll(trades), TallyOne(trade))
  {
    assert (trades + [trade])[..|trades|] == trades;
  }

  /** One more trade raises the total of the parts by that trade, once its own part is among them. */
  lemma {:induction false} SumOfPartsStep(trades: seq<RoundTrip>, keys: seq<int>, n: int)
    requires |keys| == |trades| > 0 && 0 <= n
    ensures var m := |trades| - 1;
      SumOfParts(trades, keys, n)
        == if 0 <= keys[m] < n then Add(SumOfParts(trades[..m], keys[..m], n), TallyOne(trades[m]))
           else SumOfParts(trades[..m], keys[..m], n)
    decreases n
  {
    hide TallyAll, TallyOne;
    if n == 0 {
    } else {
      var m := |trades| - 1;
      SumOfPartsStep(trades, keys, n - 1);
      TallyAppend(Part(trades[..m], keys[..m], n - 1), trades[m]);
      assert Part(trades[..m], keys[..m], n - 1) + [] == Part(trades[..m], keys[..m], n - 1);
    }
  }

  lemma {:induction false} SumOfNoParts(n: int)
    requires 0 <= n
    ensures SumOfParts([], [], n) == NOTHING
    decreases n
  {
    if n == 0 {
    } else {
      SumOfNoParts(n - 1);
    }
  }

  predicate KeysBelow(keys: seq<int>, n: int) {
    forall i | 0 <= i < |keys| :: 0 <= keys[i] < n
  }

  /** Every trade lands in exactly one part: all totals of the parts add up to those of the journal. */
  lemma {:induction false} PartsConserveTotals(trades: seq<RoundTrip>, keys: seq<int>, n: int)
    requires |keys| == |trades| && 0 <= n && KeysBelow(keys, n)
    ensures SumOfParts(trades, keys, n) == TallyAll(trades)
  {
    if trades == [] {
      SumOfNoParts(n);
    } else {
      var m := |trades| - 1;
      PartsConserveTotals(trades[..m], keys[..m], n);
      SumOfPartsStep(trades, keys, n);
      hide SumOfParts, Add, TallyOne;
    }
  }

  /** What the last trade does to one part. */
  lemma LastTradeInPart(trades: seq<RoundTrip>, keys: seq<int>, k: int)
    requires |keys| == |trades| > 0
    ensures var m := |trades| - 1;
      Part(trades, keys, k)
      == if keys[m] == k then Part(trades[..m], keys[..m], k) + [trades[m]] else Part(trades[..m], keys[..m], k)
  {
  }

  lemma {:induction false} JoinedWithoutLast(trades: seq<RoundTrip>, keys: seq<int>, n: int)
    requires |keys| == |trades| > 0 && 0 <= n <= keys[|trades| - 1]
    ensures Joined(trades, keys, n) == Joined(trades[..|trades| - 1], keys[..|trades| - 1], n)
    decreases n
  {
    hide Part;
    if n == 0 {
    } else {
      JoinedWithoutLast(trades, keys, n - 1);
      LastTradeInPart(trades, keys, n - 1);
    }
  }

  lemma JoinedWithLast(trades: seq<RoundTrip>, keys: seq<int>, n: int)
    requires |keys| == |trades| > 0 && 0 <= keys[|trades| - 1] == n - 1
    ensures Joined(trades, keys, n) == Joined(trades[..|trades| - 1], keys[..|trades| - 1], n) + [trades[|trades| - 1]]
  {
    hide Part;
    var m := |trades| - 1;
    JoinedWithoutLast(trades, keys, n - 1);
    LastTradeInPart(trades, keys, n - 1);
    var before, part := Joined(trades[..m], keys[..m], n - 1), Part(trades[..m], keys[..m], n - 1);
    assert before + (part + [trades[m]]) == (before + part) + [trades[m]];
  }

  lemma {:induction false} JoinedMultiset(trades: seq<RoundTrip>, keys: seq<int>, n: int)
    requires |keys| == |trades| > 0 && 0 <= keys[|trades| - 1] < n
    ensures multiset(Joined(trades, keys, n))
         == multiset(Joined(trades[..|trades| - 1], keys[..|trades| - 1], n)) + multiset{trades[|trades| - 1]}
    decreases n
  {
    hide Part;
    if n == keys[|trades| - 1] + 1 {
      JoinedWithLast(trades, keys, n);
    } else {
      JoinedMultiset(trades, keys, n - 1);
      LastTradeInPart(trades, keys, n - 1);
    }
  }

  lemma {:induction false} JoinedNothing(n: int)
    requires 0 <= n
    ensures Joined([], [], n) == []
    decreases n
  {
    if n == 0 {
    } else {
      JoinedNothing(n - 1);
    }
  }

  /** No trade is lost, added or altered by the partition. */
  lemma {:induction false} PartsConserveTrades(trades: seq<RoundTrip>, keys: seq<int>, n: int)
    requires |keys| == |trades| && 0 <= n && KeysBelow(keys, n)
    ensures multiset(Joined(trades, keys, n)) == multiset(trades)
  {
    hide Joined;
    if trades == [] {
      JoinedNothing(n);
    } else {
      var m := |trades| - 1;
      PartsConserveTrades(trades[..m], keys[..m], n);
      JoinedMultiset(trades, keys, n);
      assert trades == trades[..m] + [trades[m]];
    }
  }

  predicate KeysSorted(keys: seq<int>) {
    forall i, j | 0 <= i <= j < |keys| :: keys[i] <= keys[j]
  }

  lemma {:induction false} JoinedAbove(trades: seq<RoundTrip>, keys: seq<int>, k: int, n: int)
    requires |keys| == |trades| && 0 <= k <= n && KeysBelow(keys, k)
    ensures Joined(trades, keys, n) == Joined(trades, keys, k)
    decreases n
  {
    if k == n {
    } else {
      JoinedAbove(trades, keys, k, n - 1);
      NoPartAbove(trades, keys, n - 1);
    }
  }

  lemma {:induction false} NoPartAbove(trades: seq<RoundTrip>, keys: seq<int>, k: int)
    requires |keys| == |trades| && KeysBelow(keys, k)
    ensures Part(trades, keys, k) == []
  {
    if trades == [] {
    } else {
      var m := |trades| - 1;
      NoPartAbove(trades[..m], keys[..m], k);
      assert keys[m] < k;
    }
  }

  /** Where keys never fall, the parts one after the other are the journal itself. */
  lemma {:induction false} SortedPartsJoin(trades: seq<RoundTrip>, keys: seq<int>, n: int)
    requires |keys| == |trades| && 0 <= n && KeysBelow(keys, n) && KeysSorted(keys)
    ensures Joined(trades, keys, n) == trades
  {
    hide Joined;
    if trades == [] {
      JoinedNothing(n);
    } else {
      var m := |trades| - 1;
      var k := keys[m] + 1;
      assert KeysBelow(keys, k);
      assert KeysBelow(keys[..m], k);
      SortedPartsJoin(trades[..m], keys[..m], k);
      JoinedWithLast(trades, keys, k);
      JoinedAbove(trades, keys, k, n);
      assert trades == trades[..m] + [trades[m]];
    }
  }

  // ---------------------------------------------------------------- split and walk-forward

  function TallyOfSummary(s: Summary): Tally {
    Tally(s.trades, s.wins, s.losses, s.breakeven, s.grossProfit, s.grossLoss, s.totalFees, s.netPnL)
  }

  lemma SummaryTally(initial: real, trades: seq<RoundTrip>)
    requires 0.0 < initial
    ensures TallyOfSummary(SummaryOf(initial, trades)) == TallyAll(trades)
  {
    MetricsTrades(trades);
    hide Quo, MaxDrawdownAt, EquityAt, TallyAll;
  }

  lemma {:induction false} MetricsTrades(trades: seq<RoundTrip>)
    ensures TallyAll(trades).trades == |trades|
  {
    if trades == [] {
    } else {
      MetricsTrades(trades[..|trades| - 1]);
    }
  }

  predicate SortedByEntry(trades: seq<RoundTrip>) {
    forall i, j | 0 <= i <= j < |trades| :: trades[i].entry.time <= trades[j].entry.time
  }

  lemma AddNothing(t: Tally)
    ensures Add(NOTHING, t) == t
  {
  }

  lemma TwoParts(trades: seq<RoundTrip>, keys: seq<int>)
    requires |keys| == |trades|
    ensures Joined(trades, keys, 2) == Part(trades, keys, 0) + Part(trades, keys, 1)
    ensures SumOfParts(trades, keys, 2) == Add(TallyAll(Part(trades, keys, 0)), TallyAll(Part(trades, keys, 1)))
  {
    hide Part, TallyAll, Add;
    assert Joined(trades, keys, 1) == [] + Part(trades, keys, 0);
    assert SumOfParts(trades, keys, 1) == Add(NOTHING, TallyAll(Part(trades, keys, 0)));
    AddNothing(TallyAll(Part(trades, keys, 0)));
  }

  /** Splitting conserves the journal: the totals of both summaries add up to those of the whole, no trade is
      lost, and a journal sorted by entry time is its in-sample part followed by its out-of-sample part. */
  lemma SplitConserves(initial: real, trades: seq<RoundTrip>, splitTime: int)
    requires SplitOutcome(initial, trades, splitTime).Ok?
    ensures var s := SplitOutcome(initial, trades, splitTime).value;
      0.0 < initial
      && Add(TallyOfSummary(s.inSample), TallyOfSummary(s.outOfSample)) == TallyOfSummary(SummaryOf(initial, trades))
    ensures var keys := SplitKeys(trades, splitTime);
      && multiset(Part(trades, keys, IN_SAMPLE) + Part(trades, keys, OUT_OF_SAMPLE)) == multiset(trades)
      && (SortedByEntry(trades) ==> Part(trades, keys, IN_SAMPLE) + Part(trades, keys, OUT_OF_SAMPLE) == trades)
  {
    hide Part, TallyAll, SummaryOf, TallyOfSummary, Joined, SumOfParts, FirstInvalid, Add;
    var keys := SplitKeys(trades, splitTime);
    SummaryTally(initial, trades);
    SummaryTally(initial, Part(trades, keys, IN_SAMPLE));
    SummaryTally(initial, Part(trades, keys, OUT_OF_SAMPLE));
    PartsConserveTotals(trades, keys, 2);
    PartsConserveTrades(trades, keys, 2);
    TwoParts(trades, keys);
    if SortedByEntry(trades) {
      SortedPartsJoin(trades, keys, 2);
    }
  }

  function SumOfFolds(folds: seq<Fold>, n: int): Tally
    requires 0 <= n <= |folds|
    decreases n
  {
    if n == 0 then NOTHING else Add(SumOfFolds(folds, n - 1), TallyOfSummary(folds[n - 1].summary))
  }

  lemma {:induction false} SumOfFoldsIsSumOfParts(initial: real, trades: seq<RoundTrip>, cfg: WalkForwardConfig, n: int)
    requires ConfigProblem(initial, cfg).None? && 0 <= n <= cfg.folds
    ensures |FoldsOf(initial, trades, cfg)| == cfg.folds
    ensures SumOfFolds(FoldsOf(initial, trades, cfg), n) == SumOfParts(trades, FoldKeys(trades, cfg), n)
    decreases n
  {
    hide Part, TallyOfSummary, FoldBounds, Add, SummaryOf, FoldKeys;
    if n == 0 {
    } else {
      SumOfFoldsIsSumOfParts(initial, trades, cfg, n - 1);
      SummaryTally(initial, Part(trades, FoldKeys(trades, cfg), n - 1));
    }
  }

  lemma FoldKeysBelow(trades: seq<RoundTrip>, cfg: WalkForwardConfig)
    requires cfg.windowStart < cfg.windowEnd && 1 <= cfg.folds
    ensures KeysBelow(FoldKeys(trades, cfg), cfg.folds)
  {
    hide FoldIndex;
    forall i | 0 <= i < |trades| ensures 0 <= FoldKeys(trades, cfg)[i] < cfg.folds {
      IndexInRange(trades[i].entry.time, cfg.windowStart, cfg.windowEnd, cfg.folds);
    }
  }

  /** Walk-forward conserves the journal: trades, wins, losses, break-evens, fees, gross profit, gross loss and
      net profit of the folds add up to those of the whole summary, and no trade is lost or counted twice. */
  lemma WalkForwardConserves(initial: real, trades: seq<RoundTrip>, cfg: WalkForwardConfig)
    requires WalkForwardOutcome(initial, trades, cfg).Ok?
    ensures ConfigProblem(initial, cfg).None?
    ensures var folds := WalkForwardOutcome(initial, trades, cfg).value;
      |folds| == cfg.folds && SumOfFolds(folds, cfg.folds) == TallyOfSummary(SummaryOf(initial, trades))
    ensures multiset(Joined(trades, FoldKeys(trades, cfg), cfg.folds)) == multiset(trades)
  {
    hide FoldsOf, SummaryOf, TallyOfSummary, TallyAll, FoldKeys, SumOfFolds, SumOfParts, Joined;
    hide FirstRefused, ValidRoundTrip;
    FoldKeysBelow(trades, cfg);
    SumOfFoldsIsSumOfParts(initial, trades, cfg, cfg.folds);
    PartsConserveTotals(trades, FoldKeys(trades, cfg), cfg.folds);
    PartsConserveTrades(trades, FoldKeys(trades, cfg), cfg.folds);
    SummaryTally(initial, trades);
  }

  /** A later entry never has an earlier fold, as long as its product does not wrap around. */
  lemma FoldIndexMono(a: int, b: int, start: int, end: int, folds: int)
    requires start <= a <= b < end && 1 <= folds && (b - start) * folds < TWO63
    ensures FoldIndex(a, start, end, folds) <= FoldIndex(b, start, end, folds)
  {
    var x, y := (a - start) * folds, (b - start) * folds;
    MulMono(a - start, b - start, folds);
    MulMono(0, a - start, folds);
    MulMono(1, folds, b - start);
    assert folds * (b - start) == y;
    WrapIsExact(x);
    WrapIsExact(y);
    QuotientMono(x, y, TimeSub(end, start));
    hide Wrap64;
  }

  /** A window of three years, from the start of 2023 on, in a hundred folds. */
  const THREE_YEARS := WalkForwardConfig(63_808_128_000_000_000_000, 63_902_736_000_000_000_000, 100)

  /** Three years in a hundred folds: at 92 million seconds the fold is 97, and a million seconds later it is
      0 instead of 98, because the product has wrapped around. */
  lemma WrapBreaksTheOrder()
    ensures var (start, end, a, b) :=
        (THREE_YEARS.windowStart, THREE_YEARS.windowEnd, 92_000_000_000_000_000, 93_000_000_000_000_000);
      && end - start == 3 * 365 * 24 * HOUR && 0 < a < b < end - start
      && FoldIndex(start + a, start, end, 100) == TrueFold(a, end - start, 100) == 97
      && FoldIndex(start + b, start, end, 100) == 0 && TrueFold(b, end - start, 100) == 98
  {
  }

  /** So the folds of an accepted journal of these two entries, in order, do not join to it. */
  lemma WrapSwapsEntries(initial: real)
    requires 0.0 < initial
    ensures var start := THREE_YEARS.windowStart;
      var trades := [EntryAt(start + 92_000_000_000_000_000), EntryAt(start + 93_000_000_000_000_000)];
      WalkForwardOutcome(initial, trades, THREE_YEARS).Ok? && SortedByEntry(trades) && !FoldsJoin(trades, THREE_YEARS)
  {
    WrapBreaksTheOrder();
    var start := THREE_YEARS.windowStart;
    var (s, t) := (start + 92_000_000_000_000_000, start + 93_000_000_000_000_000);
    TwoEntriesAccepted(initial, THREE_YEARS, s, t);
    hide WalkForwardOutcome, SortedByEntry, Joined, FoldIndex, TrueFold;
    var trades := [EntryAt(s), EntryAt(t)];
    LaterTradeFirst(trades[0], trades[1], FoldKeys(trades, THREE_YEARS), 100);
  }

  predicate ProductFits(trade: RoundTrip, cfg: WalkForwardConfig) {
    (trade.entry.time - cfg.windowStart) * cfg.folds < TWO63
  }

  lemma KeyMono(a: RoundTrip, b: RoundTrip, cfg: WalkForwardConfig)
    requires cfg.windowStart < cfg.windowEnd && 1 <= cfg.folds && InWindow(a, cfg) && InWindow(b, cfg)
    requires a.entry.time <= b.entry.time && ProductFits(b, cfg)
    ensures KeyOf(a, cfg) <= KeyOf(b, cfg)
  {
    hide FoldIndex;
    FoldIndexMono(a.entry.time, b.entry.time, cfg.windowStart, cfg.windowEnd, cfg.folds);
  }

  lemma AcceptedInWindow(initial: real, trades: seq<RoundTrip>, cfg: WalkForwardConfig)
    requires WalkForwardOutcome(initial, trades, cfg).Ok?
    ensures ConfigProblem(initial, cfg).None? && forall i | 0 <= i < |trades| :: InWindow(trades[i], cfg)
  {
    hide ValidRoundTrip, InWindow, FoldsOf;
  }

  lemma SortedKeys(trades: seq<RoundTrip>, cfg: WalkForwardConfig)
    requires cfg.windowStart < cfg.windowEnd && 1 <= cfg.folds && SortedByEntry(trades)
    requires forall i | 0 <= i < |trades| :: InWindow(trades[i], cfg) && ProductFits(trades[i], cfg)
    ensures KeysSorted(FoldKeys(trades, cfg))
  {
    hide KeyOf, ProductFits, InWindow;
    forall i, j | 0 <= i <= j < |trades| ensures FoldKeys(trades, cfg)[i] <= FoldKeys(trades, cfg)[j] {
      KeyMono(trades[i], trades[j], cfg);
    }
  }

  /** For a journal sorted by entry time, none of whose products wraps around, the folds one after the other
      are the journal itself. */
  lemma SortedFoldsJoin(initial: real, trades: seq<RoundTrip>, cfg: WalkForwardConfig)
    requires WalkForwardOutcome(initial, trades, cfg).Ok? && SortedByEntry(trades)
    requires forall i | 0 <= i < |trades| :: ProductFits(trades[i], cfg)
    ensures Joined(trades, FoldKeys(trades, cfg), cfg.folds) == trades
  {
    hide FoldKeys, WalkForwardOutcome, Joined, ProductFits, InWindow, KeysBelow, KeysSorted, SortedByEntry;
    AcceptedInWindow(initial, trades, cfg);
    FoldKeysBelow(trades, cfg);
    SortedKeys(trades, cfg);
    SortedPartsJoin(trades, FoldKeys(trades, cfg), cfg.folds);
  }

  // ---------------------------------------------------------------- which windows keep the order

  /** The first offset whose product wraps around, and the one before it. */
  lemma FirstWrappedEntry(start: int, end: int, folds: int) returns (e: int)
    requires Window(start, end, folds) && !EntriesFit(start, end, folds)
    requires end - start <= TWO63 / 2 && folds <= TWO63 / 2
    ensures 1 <= e < end - start && FoldIndex(start + e, start, end, folds) == 0
    ensures 1 <= FoldIndex(start + e - 1, start, end, folds)
  {
    assert folds * (end - start - 1) == (end - start - 1) * folds;
    assert end - start == 1 ==> (end - start - 1) * folds == 0;
    var last := FirstWrap(folds, end - start - 1);
    e := last + 1;
    assert folds * (e - 1) == (e - 1) * folds && folds * e == e * folds;
    assert e * folds == (e - 1) * folds + folds;
    FoldIndexExactIff(start + e - 1, start, end, folds);
    FoldIndexExactIff(start + e, start, end, folds);
    BelowQuotient(1, (e - 1) * folds, end - start);
    WrapTurnsNegative(e * folds, end - start);
    assert TimeSub(end, start) == end - start && TimeSub(start + e, start) == e;
    hide Wrap64, TruncDiv, TimeSub;
  }

  function EntryAt(t: int): RoundTrip {
    var fill := Fill(t, 1.0, 1.0, 1.0, 1.0, 0.0, 0.0, 0.0, 0.0);
    RoundTrip(Long, fill, fill, 0.0, 0.0, 0.0, 0.0)
  }

  /** What is joined starts with the first part. */
  lemma {:induction false} JoinedStartsWithPartZero(trades: seq<RoundTrip>, keys: seq<int>, n: int)
    requires |keys| == |trades| && 1 <= n
    ensures Part(trades, keys, 0) <= Joined(trades, keys, n)
    decreases n
  {
    hide Part;
    if n == 1 {
      assert Joined(trades, keys, 0) == [];
    } else {
      JoinedStartsWithPartZero(trades, keys, n - 1);
    }
  }

  lemma LaterTradeFirst(a: RoundTrip, b: RoundTrip, keys: seq<int>, n: int)
    requires |keys| == 2 && keys[0] != 0 && keys[1] == 0 && 1 <= n && a != b
    ensures Joined([a, b], keys, n) != [a, b]
  {
    var trades := [a, b];
    hide Joined;
    assert trades[..1] == [a] && keys[..1] == [keys[0]];
    assert trades[..1][..0] == [] && keys[..1][..0] == [];
    assert Part([], [], 0) == [];
    assert Part(trades[..1], keys[..1], 0) == [];
    assert Part(trades, keys, 0) == [b];
    JoinedStartsWithPartZero(trades, keys, n);
    assert [b] <= Joined(trades, keys, n);
    assert [b][0] == Joined(trades, keys, n)[0];
    assert trades[0] == a;
  }

  lemma TwoEntriesAccepted(initial: real, cfg: WalkForwardConfig, s: int, t: int)
    requires ConfigProblem(initial, cfg).None? && cfg.windowStart <= s < t < cfg.windowEnd
    ensures var trades := [EntryAt(s), EntryAt(t)];
      WalkForwardOutcome(initial, trades, cfg).Ok? && SortedByEntry(trades)
  {
    hide FoldsOf;
    var trades := [EntryAt(s), EntryAt(t)];
    assert trades[1..] == [EntryAt(t)] && trades[1..][1..] == [];
    assert FirstRefused([], cfg) == 0;
    assert FirstRefused([EntryAt(t)], cfg) == 1;
    assert FirstRefused(trades, cfg) == 2;
  }

  /** The folds of a journal, one after the other. */
  ghost predicate FoldsJoin(trades: seq<RoundTrip>, cfg: WalkForwardConfig)
    requires cfg.windowStart < cfg.windowEnd && 0 <= cfg.folds
  {
    Joined(trades, FoldKeys(trades, cfg), cfg.folds) == trades
  }

  lemma UnfitWindowSwapsEntries(initial: real, cfg: WalkForwardConfig) returns (trades: seq<RoundTrip>)
    requires ConfigProblem(initial, cfg).None? && Window(cfg.windowStart, cfg.windowEnd, cfg.folds)
    requires cfg.windowEnd - cfg.windowStart <= TWO63 / 2 && cfg.folds <= TWO63 / 2
    requires !EntriesFit(cfg.windowStart, cfg.windowEnd, cfg.folds)
    ensures WalkForwardOutcome(initial, trades, cfg).Ok? && SortedByEntry(trades) && !FoldsJoin(trades, cfg)
  {
    hide WalkForwardOutcome, SortedByEntry, Joined, FoldIndex, EntriesFit;
    var e := FirstWrappedEntry(cfg.windowStart, cfg.windowEnd, cfg.folds);
    var t := cfg.windowStart + e;
    trades := [EntryAt(t - 1), EntryAt(t)];
    TwoEntriesAccepted(initial, cfg, t - 1, t);
    LaterTradeFirst(trades[0], trades[1], FoldKeys(trades, cfg), cfg.folds);
  }

  lemma FittingWindowJoins(initial: real, trades: seq<RoundTrip>, cfg: WalkForwardConfig)
    requires WalkForwardOutcome(initial, trades, cfg).Ok? && SortedByEntry(trades)
    requires EntriesFit(cfg.windowStart, cfg.windowEnd, cfg.folds)
    ensures ConfigProblem(initial, cfg).None? && FoldsJoin(trades, cfg)
  {
    hide WalkForwardOutcome, SortedByEntry, Joined, FoldKeys;
    AcceptedInWindow(initial, trades, cfg);
    forall i | 0 <= i < |trades| ensures ProductFits(trades[i], cfg) {
      EntryFits(trades[i].entry.time - cfg.windowStart, cfg.windowStart, cfg.windowEnd, cfg.folds);
    }
    SortedFoldsJoin(initial, trades, cfg);
  }

  /** In a window of up to 146 years, the folds of every accepted journal sorted by entry time join to the
      journal itself, exactly when no product for an entry wraps around. */
  lemma SortedFoldsJoinIff(initial: real, cfg: WalkForwardConfig)
    requires ConfigProblem(initial, cfg).None? && Window(cfg.windowStart, cfg.windowEnd, cfg.folds)
    requires cfg.windowEnd - cfg.windowStart <= TWO63 / 2 && cfg.folds <= TWO63 / 2
    ensures (forall trades | WalkForwardOutcome(initial, trades, cfg).Ok? && SortedByEntry(trades) ::
               FoldsJoin(trades, cfg))
       <==> EntriesFit(cfg.windowStart, cfg.windowEnd, cfg.folds)
  {
    hide WalkForwardOutcome, SortedByEntry, FoldsJoin, EntriesFit;
    if EntriesFit(cfg.windowStart, cfg.windowEnd, cfg.folds) {
      forall trades | WalkForwardOutcome(initial, trades, cfg).Ok? && SortedByEntry(trades)
        ensures FoldsJoin(trades, cfg)
      {
        FittingWindowJoins(initial, trades, cfg);
      }
    } else {
      var trades := UnfitWindowSwapsEntries(initial, cfg);
      assert !FoldsJoin(trades, cfg);
    }
  }
}
