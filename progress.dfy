/**
 * The download progress bar (`ProgressBar`). Only the integer state and the
 * bar's cells are modelled; the clock is an integer number of milliseconds
 * passed in by the caller.
 */
module Progress {
  import opened Wrappers
  import opened Text

  /** The bar is drawn at most once per 0.1 s. */
  const UpdateIntervalMs: int := 100
  const DefaultBarLength: int := 30
  const FilledCell: char := '█'
  const EmptyCell: char := '░'

  /**
   * `int(bar_length * downloaded // total_size) if total_size > 0 else 0`.
   * The divisor is positive here, where Dafny's `/` and Python's `//` agree.
   */
  function FillLength(barLength: int, downloaded: int, total: int): (filled: int)
    ensures total <= 0 ==> filled == 0
    ensures total > 0 && barLength >= 0 && downloaded >= 0 ==> filled >= 0
  {
    if total > 0 then (barLength * downloaded) / total else 0
  }

  /** `'█' * filled + '░' * (bar_length - filled)`. */
  function BarText(barLength: int, filled: int): (bar: string)
    ensures 0 <= filled <= barLength ==> |bar| == barLength
    ensures 0 <= filled <= barLength ==>
      forall i :: 0 <= i < barLength ==> bar[i] == if i < filled then FilledCell else EmptyCell
  {
    Repeat(FilledCell, filled) + Repeat(EmptyCell, barLength - filled)
  }

  /** A bar is drawn when at least one interval has passed since the last drawing. */
  predicate IsDue(lastUpdate: int, now: int) {
    now - lastUpdate >= UpdateIntervalMs
  }

  /** While the download is within its declared size the fill lies in `[0, barLength]`. */
  lemma FillWithinBar(barLength: int, downloaded: int, total: int)
    requires total > 0 && 0 <= downloaded <= total && barLength >= 0
    ensures 0 <= FillLength(barLength, downloaded, total) <= barLength
  {
    var p := barLength * downloaded;
    assert 0 <= p <= barLength * total by {
      MulMonotone(barLength, downloaded, total);
    }
    DivMonotone(p, barLength * total, total);
    MulDivCancel(barLength, total);
    DivMonotone(0, p, total);
  }

  /** The fill never shrinks as more bytes arrive. */
  lemma FillMonotone(barLength: int, before: int, after: int, total: int)
    requires total > 0 && barLength >= 0 && before <= after
    ensures FillLength(barLength, before, total) <= FillLength(barLength, after, total)
  {
    MulMonotone(barLength, before, after);
    DivMonotone(barLength * before, barLength * after, total);
  }

  /** A download that reached its declared size fills the whole bar. */
  lemma FillComplete(barLength: int, total: int)
    requires total > 0
    ensures FillLength(barLength, total, total) == barLength
  {
    MulDivCancel(barLength, total);
  }

  lemma MulMonotone(c: int, a: int, b: int)
    requires c >= 0 && a <= b
    ensures c * a <= c * b
  {
    assert c * b - c * a == c * (b - a);
  }

  lemma DivMonotone(a: int, b: int, d: int)
    requires d > 0 && a <= b
    ensures a / d <= b / d
  {
    var qa, qb := a / d, b / d;
    assert a == d * qa + a % d && 0 <= a % d < d;
    assert b == d * qb + b % d && 0 <= b % d < d;
    if qa > qb {
      MulMonotone(d, 1, qa - qb);
      assert false;
    }
  }

  lemma MulDivCancel(c: int, d: int)
    requires d > 0
    ensures (c * d) / d == c
  {
    var q, r := (c * d) / d, (c * d) % d;
    assert c * d == d * q + r && 0 <= r < d;
    assert d * (c - q) == r;
    if c - q >= 1 {
      MulMonotone(d, 1, c - q);
    } else if c - q <= -1 {
      MulMonotone(d, c - q, -1);
    }
  }

  /** A bar drawn within its declared size always has exactly `barLength` cells. */
  lemma DrawnBarLength(barLength: int, downloaded: int, total: int)
    requires barLength >= 0 && 0 <= downloaded <= total
    ensures |BarText(barLength, FillLength(barLength, downloaded, total))| == barLength
  {
    if total > 0 {
      FillWithinBar(barLength, downloaded, total);
    }
  }

  /** With a known total, the bar drawn for the complete download is entirely filled. */
  lemma FinishedBarIsFull(barLength: int, total: int)
    requires total > 0 && barLength >= 0
    ensures |BarText(barLength, FillLength(barLength, total, total))| == barLength
    ensures forall i :: 0 <= i < barLength ==> BarText(barLength, FillLength(barLength, total, total))[i] == FilledCell
  {
    FillComplete(barLength, total);
  }

  /** Drawing times: the first is at least one interval after 0, and each next one an interval after the previous. */
  ghost predicate Spaced(times: seq<int>) {
    (times != [] ==> IsDue(0, times[0]))
    && forall k :: 0 < k < |times| ==> IsDue(times[k - 1], times[k])
  }

  /** Any two drawings are at least one interval apart, however far apart in the sequence. */
  lemma {:induction false} SpacedPairwise(times: seq<int>)
    requires Spaced(times)
    ensures forall i, j :: 0 <= i < j < |times| ==> times[j] - times[i] >= (j - i) * UpdateIntervalMs
    decreases |times|
  {
    if |times| > 1 {
      var init := times[..|times| - 1];
      assert Spaced(init) by {
        forall k | 0 < k < |init| ensures IsDue(init[k - 1], init[k]) {
          assert IsDue(times[k - 1], times[k]);
        }
      }
      SpacedPairwise(init);
      var n := |times| - 1;
      forall i | 0 <= i < n ensures times[n] - times[i] >= (n - i) * UpdateIntervalMs {
        assert IsDue(times[n - 1], times[n]);
        if i < n - 1 {
          assert init[n - 1] - init[i] >= (n - 1 - i) * UpdateIntervalMs;
        }
      }
    }
  }

  /** `ProgressBar`: the bytes seen so far and the time of the last drawing. */
  class ProgressBar {
    const totalSize: int
    const barLength: int
    var currentSize: int
    var lastUpdate: int
    /** The times at which the bar was drawn, oldest first. */
    ghost var drawnAt: seq<int>

    ghost predicate Valid()
      reads this
    {
      && (drawnAt == [] ==> lastUpdate == 0)
      && (drawnAt != [] ==> lastUpdate == drawnAt[|drawnAt| - 1])
      && Spaced(drawnAt)
    }

    /** `ProgressBar(total_size, bar_length=...)`: nothing seen, never drawn. */
    constructor (totalSize: int, barLength: int)
      ensures Valid()
      ensures this.totalSize == totalSize && this.barLength == barLength
      ensures currentSize == 0 && lastUpdate == 0 && drawnAt == []
    {
      this.totalSize := totalSize;
      this.barLength := barLength;
      currentSize := 0;
      lastUpdate := 0;
      drawnAt := [];
    }

    /**
     * `update(downloaded)` at time `now`: records the byte count, and draws
     * the bar (returned) only when the update interval has passed.
     */
    method Update(downloaded: int, now: int) returns (drawn: Option<string>)
      requires Valid()
      modifies this
      ensures Valid()
      ensures currentSize == downloaded
      ensures !IsDue(old(lastUpdate), now) ==>
        drawn == None && lastUpdate == old(lastUpdate) && drawnAt == old(drawnAt)
      ensures IsDue(old(lastUpdate), now) ==>
        && drawn == Some(BarText(barLength, FillLength(barLength, downloaded, totalSize)))
        && lastUpdate == now && drawnAt == old(drawnAt) + [now]
    {
      currentSize := downloaded;
      if now - lastUpdate < UpdateIntervalMs {
        return None;
      }
      lastUpdate := now;
      drawnAt := drawnAt + [now];
      var filled := if totalSize > 0 then (barLength * downloaded) / totalSize else 0;
      var bar := Repeat(FilledCell, filled) + Repeat(EmptyCell, barLength - filled);
      return Some(bar);
    }

    /**
     * `finish()`: an update with the declared total size. Being an ordinary
     * update, it draws nothing inside the interval.
     */
    method Finish(now: int) returns (drawn: Option<string>)
      requires Valid()
      modifies this
      ensures Valid()
      ensures currentSize == totalSize
      ensures !IsDue(old(lastUpdate), now) ==> drawn == None && lastUpdate == old(lastUpdate)
      ensures IsDue(old(lastUpdate), now) ==>
        drawn == Some(BarText(barLength, FillLength(barLength, totalSize, totalSize))) && lastUpdate == now
      ensures IsDue(old(lastUpdate), now) ==> drawnAt == old(drawnAt) + [now]
      ensures !IsDue(old(lastUpdate), now) ==> drawnAt == old(drawnAt)
    {
      drawn := Update(totalSize, now);
    }

    /** `finish()` as its comment intends: the complete bar is drawn whatever the interval. */
    method FinishFull(now: int) returns (drawn: string)
      requires Valid()
      modifies this
      ensures Valid()
      ensures currentSize == totalSize
      ensures drawn == BarText(barLength, FillLength(barLength, totalSize, totalSize))
      ensures IsDue(old(lastUpdate), now) ==> lastUpdate == now && drawnAt == old(drawnAt) + [now]
      ensures !IsDue(old(lastUpdate), now) ==> lastUpdate == old(lastUpdate) && drawnAt == old(drawnAt)
    {
      var throttled := Update(totalSize, now);
      if throttled.Some? {
        drawn := throttled.value;
      } else {
        drawn := BarText(barLength, FillLength(barLength, totalSize, totalSize));
      }
    }
  }

  /**
   * A 100-byte download drawn half done at 1000 ms, completed at 1020 ms and
   * finished at 1040 ms: `finish()` draws nothing, so the half bar is the
   * last one shown.
   */
  method FinishRightAfterLastDraw() returns (lastDrawn: Option<string>, completed: Option<string>, closing: Option<string>)
    ensures lastDrawn == Some(BarText(DefaultBarLength, DefaultBarLength / 2))
    ensures completed == None && closing == None
  {
    var bar := new ProgressBar(100, DefaultBarLength);
    lastDrawn := bar.Update(50, 1000);
    completed := bar.Update(100, 1020);
    closing := bar.Finish(1040);
  }

  /** The same download closed by the corrected finish ends on the full bar. */
  method FinishFullRightAfterLastDraw() returns (lastDrawn: Option<string>, completed: Option<string>, closing: string)
    ensures lastDrawn == Some(BarText(DefaultBarLength, DefaultBarLength / 2))
    ensures completed == None
    ensures |closing| == DefaultBarLength && forall i :: 0 <= i < |closing| ==> closing[i] == FilledCell
  {
    var bar := new ProgressBar(100, DefaultBarLength);
    lastDrawn := bar.Update(50, 1000);
    completed := bar.Update(100, 1020);
    closing := bar.FinishFull(1040);
    FinishedBarIsFull(DefaultBarLength, 100);
  }
}
