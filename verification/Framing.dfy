/** Splitting one batch of an analytical stream into frames of bounded size. Strings stand for bytes. */
module Framing {

  const MAX_FRAME_BYTES: nat := 16 * 1024 * 1024

  /** Rows joined by commas. */
  function Join(rows: seq<string>): string {
    if rows == [] then "" else if |rows| == 1 then rows[0] else Join(rows[..|rows| - 1]) + "," + rows[|rows| - 1]
  }

  function Line(prefix: string, suffix: string, rows: seq<string>): string { prefix + Join(rows) + suffix }

  function Base(prefix: string, suffix: string): nat { |prefix| + |suffix| }

  function Size(prefix: string, suffix: string, rows: seq<string>): nat { |Line(prefix, suffix, rows)| }

  predicate Fits(prefix: string, suffix: string, rows: seq<string>) { Size(prefix, suffix, rows) <= MAX_FRAME_BYTES }

  /** A row that fits in no frame. */
  predicate TooLarge(prefix: string, suffix: string, row: string) { !Fits(prefix, suffix, [row]) }

  function Flatten(frames: seq<seq<string>>): seq<string> {
    if frames == [] then [] else Flatten(frames[..|frames| - 1]) + frames[|frames| - 1]
  }

  lemma SizeOf(prefix: string, suffix: string, rows: seq<string>, row: string)
    ensures Size(prefix, suffix, []) == Base(prefix, suffix)
    ensures Size(prefix, suffix, rows + [row]) == Size(prefix, suffix, rows) + |row| + if rows == [] then 0 else 1
  {
    assert (rows + [row])[..|rows|] == rows;
    if rows == [] { assert rows + [row] == [row]; }
  }

  lemma FlattenMore(frames: seq<seq<string>>, frame: seq<string>)
    ensures Flatten(frames + [frame]) == Flatten(frames) + frame
  {
    assert (frames + [frame])[..|frames|] == frames;
  }

  /** A row inside a frame needs no more room than the frame. */
  lemma {:induction false} RowWithin(prefix: string, suffix: string, rows: seq<string>, j: nat)
    requires j < |rows|
    ensures Size(prefix, suffix, [rows[j]]) <= Size(prefix, suffix, rows)
    decreases |rows|
  {
    var front, last := rows[..|rows| - 1], rows[|rows| - 1];
    assert rows == front + [last] && [] + [last] == [last];
    SizeOf(prefix, suffix, front, last);
    SizeOf(prefix, suffix, [], last);
    if j < |front| { RowWithin(prefix, suffix, front, j); } else { NoRowsLess(prefix, suffix, front); }
  }

  lemma NoRowsLess(prefix: string, suffix: string, rows: seq<string>)
    ensures Size(prefix, suffix, []) <= Size(prefix, suffix, rows)
  {
  }

  ghost predicate FirstTooLarge(prefix: string, suffix: string, rows: seq<string>) { rows != [] && TooLarge(prefix, suffix, rows[0]) }

  ghost predicate LastTooLarge(prefix: string, suffix: string, rows: seq<string>) {
    rows != [] && TooLarge(prefix, suffix, rows[|rows| - 1])
  }

  /** `frame` holds nothing but a too large row with number from 1 to `n - 1`. */
  ghost predicate OnlyLarge(prefix: string, suffix: string, rows: seq<string>, n: nat, frame: seq<string>) {
    exists i | 0 < i < |rows| :: i < n && frame == [rows[i]] && TooLarge(prefix, suffix, rows[i])
  }

  /** Each frame written fits or holds nothing but a large row from the first `n`. */
  ghost predicate FramesFit(prefix: string, suffix: string, rows: seq<string>, n: nat, frames: seq<seq<string>>) {
    forall k | 0 <= k < |frames| :: Fits(prefix, suffix, frames[k]) || OnlyLarge(prefix, suffix, rows, n, frames[k])
  }

  /** Each large row among the first `n` but row 0 went out as a frame of its own. */
  ghost predicate LargeWritten(prefix: string, suffix: string, rows: seq<string>, n: nat, frames: seq<seq<string>>) {
    forall i | 0 < i < |rows| && i < n && TooLarge(prefix, suffix, rows[i]) :: [rows[i]] in frames
  }

  /** What the loop has written, and what it still holds, after the first `n` rows. */
  ghost predicate Progress(prefix: string, suffix: string, rows: seq<string>, n: nat, frames: seq<seq<string>>, held: seq<string>) {
    && n <= |rows| && |held| <= n && Flatten(frames) + held == rows[..n] && held == rows[n - |held|..n]
    && (held == [] <==> n == 0) && (n > 0 ==> !TooLarge(prefix, suffix, rows[0]))
    && (n > 0 ==> Fits(prefix, suffix, held) || (|held| == 1 && n > 1))
    && FramesFit(prefix, suffix, rows, n - |held|, frames)
    && LargeWritten(prefix, suffix, rows, n - |held|, frames)
  }

  lemma Flush(prefix: string, suffix: string, rows: seq<string>, n: nat, frames: seq<seq<string>>, held: seq<string>)
    requires Progress(prefix, suffix, rows, n, frames, held) && n > 0
    ensures FramesFit(prefix, suffix, rows, n, frames + [held]) && LargeWritten(prefix, suffix, rows, n, frames + [held])
  {
    var all, m := frames + [held], n - |held|;
    forall k | 0 <= k < |all| ensures Fits(prefix, suffix, all[k]) || OnlyLarge(prefix, suffix, rows, n, all[k]) {
      if k < |frames| {
        if OnlyLarge(prefix, suffix, rows, m, frames[k]) {
          var i :| 0 < i < |rows| && i < m && frames[k] == [rows[i]] && TooLarge(prefix, suffix, rows[i]);
          assert OnlyLarge(prefix, suffix, rows, n, all[k]);
        }
      } else if !Fits(prefix, suffix, held) {
        assert held == [rows[n - 1]];
        assert OnlyLarge(prefix, suffix, rows, n, held);
      }
    }
    forall i | 0 < i < |rows| && i < n && TooLarge(prefix, suffix, rows[i]) ensures [rows[i]] in all {
      if i >= m {
        assert held[i - m] == rows[i];
        RowWithin(prefix, suffix, held, i - m);
        assert held == [rows[i]];
        assert all[|frames|] == held;
      }
    }
  }

  lemma Extend(prefix: string, suffix: string, rows: seq<string>, n: nat, frames: seq<seq<string>>, held: seq<string>)
    requires Progress(prefix, suffix, rows, n, frames, held) && n < |rows| && Fits(prefix, suffix, held + [rows[n]])
    ensures Progress(prefix, suffix, rows, n + 1, frames, held + [rows[n]])
  {
    hide Fits; hide FramesFit; hide LargeWritten;
    assert rows[..n + 1] == rows[..n] + [rows[n]];
    if n == 0 { assert held + [rows[n]] == [rows[0]]; }
  }

  lemma Restart(prefix: string, suffix: string, rows: seq<string>, n: nat, frames: seq<seq<string>>, held: seq<string>)
    requires Progress(prefix, suffix, rows, n, frames, held) && 0 < n < |rows|
    ensures Progress(prefix, suffix, rows, n + 1, frames + [held], [rows[n]])
  {
    hide Fits; hide FramesFit; hide LargeWritten;
    Flush(prefix, suffix, rows, n, frames, held);
    FlattenMore(frames, held);
    assert rows[..n + 1] == rows[..n] + [rows[n]];
  }

  ghost predicate FullAt(prefix: string, suffix: string, frames: seq<seq<string>>, k: nat)
    requires k < |frames| - 1
  {
    frames[k + 1] != [] && !Fits(prefix, suffix, frames[k] + [frames[k + 1][0]])
  }

  /** Each frame but the last is full: the next row would not have fitted. */
  ghost predicate Greedy(prefix: string, suffix: string, frames: seq<seq<string>>) {
    forall k | 0 <= k < |frames| - 1 :: FullAt(prefix, suffix, frames, k)
  }

  lemma GreedyExtend(prefix: string, suffix: string, frames: seq<seq<string>>, held: seq<string>, row: string)
    requires Greedy(prefix, suffix, frames + [held]) && (held == [] ==> frames == [])
    ensures Greedy(prefix, suffix, frames + [held + [row]])
  {
    hide Fits;
    var old', all := frames + [held], frames + [held + [row]];
    forall k | 0 <= k < |all| - 1 ensures FullAt(prefix, suffix, all, k) {
      assert FullAt(prefix, suffix, old', k);
      assert all[k] == old'[k] && old'[k + 1] != [] && all[k + 1][0] == old'[k + 1][0];
    }
  }

  lemma GreedyRestart(prefix: string, suffix: string, frames: seq<seq<string>>, held: seq<string>, row: string)
    requires Greedy(prefix, suffix, frames + [held]) && !Fits(prefix, suffix, held + [row])
    ensures Greedy(prefix, suffix, frames + [held] + [[row]])
  {
    hide Fits;
    var old', all := frames + [held], frames + [held] + [[row]];
    forall k | 0 <= k < |all| - 1 ensures FullAt(prefix, suffix, all, k) {
      if k + 1 < |old'| { assert FullAt(prefix, suffix, old', k); assert all[k] == old'[k] && all[k + 1] == old'[k + 1]; }
    }
  }

  lemma GreedyFront(prefix: string, suffix: string, frames: seq<seq<string>>, held: seq<string>)
    requires Greedy(prefix, suffix, frames + [held])
    ensures Greedy(prefix, suffix, frames)
  {
    hide Fits;
    var all := frames + [held];
    forall k | 0 <= k < |frames| - 1 ensures FullAt(prefix, suffix, frames, k) {
      assert FullAt(prefix, suffix, all, k);
      assert all[k] == frames[k] && all[k + 1] == frames[k + 1];
    }
  }

  /** The sizes the loop compares are those of the lines it would write. */
  lemma Sizes(prefix: string, suffix: string, held: seq<string>, row: string)
    ensures Fits(prefix, suffix, held + [row]) <==> Size(prefix, suffix, held) + |row| + (if |held| > 0 then 1 else 0) <= MAX_FRAME_BYTES
    ensures Size(prefix, suffix, held + [row]) == Size(prefix, suffix, held) + |row| + if |held| > 0 then 1 else 0
    ensures Size(prefix, suffix, [row]) == |prefix| + |suffix| + |row|
    ensures held == [] ==> (Fits(prefix, suffix, held + [row]) <==> !TooLarge(prefix, suffix, row))
  {
    SizeOf(prefix, suffix, held, row);
    SizeOf(prefix, suffix, [], row);
    assert [] + [row] == [row];
  }

  /**
   * The frames of a batch carry its rows in order. Framing fails exactly when the first or the last row is too large, or the
   * frame is without rows; a too large row in between is written, alone, in a frame over the bound, so on success all
   * frames fit exactly when there is no such row. Frames are as full as the next row allows.
   */
  method FrameBatch(prefix: string, suffix: string, rows: seq<string>) returns (frames: seq<seq<string>>, failed: bool)
    ensures failed <==> FirstTooLarge(prefix, suffix, rows) || LastTooLarge(prefix, suffix, rows)
                        || (rows == [] && Base(prefix, suffix) > MAX_FRAME_BYTES)
    ensures if failed then Flatten(frames) <= rows else Flatten(frames) == rows
    ensures rows == [] && !failed ==> frames == [[]]
    ensures FramesFit(prefix, suffix, rows, if |rows| > 0 then |rows| - 1 else 0, frames)
    ensures !FirstTooLarge(prefix, suffix, rows) ==> LargeWritten(prefix, suffix, rows, if |rows| > 0 then |rows| - 1 else 0, frames)
    ensures Greedy(prefix, suffix, frames)
    ensures !failed ==> (AllFit(prefix, suffix, frames) <==> !LargeBetween(prefix, suffix, rows))
  {
    hide Fits; hide TooLarge; hide Size; hide Progress; hide Greedy; hide FramesFit; hide LargeWritten; hide Flatten;
    hide AllFit; hide LargeBetween;
    frames := [];
    var held: seq<string> := [];
    var frameBytes := |prefix| + |suffix|;
    var n := 0;
    NothingYet(prefix, suffix, rows);
    while n < |rows|
      invariant n <= |rows| && Progress(prefix, suffix, rows, n, frames, held) && frameBytes == Size(prefix, suffix, held)
      invariant (held == [] <==> n == 0) && (n == 0 ==> frames == []) && Greedy(prefix, suffix, frames + [held])
    {
      var encoded := rows[n];
      var encodedBytes := |encoded| + if |held| > 0 then 1 else 0;
      Sizes(prefix, suffix, held, encoded);
      if frameBytes + encodedBytes > MAX_FRAME_BYTES {
        if |held| == 0 { return frames, true; }
        Restart(prefix, suffix, rows, n, frames, held);
        GreedyRestart(prefix, suffix, frames, held, encoded);
        frames := frames + [held];
        held := [encoded];
        frameBytes := |prefix| + |suffix| + |encoded|;
      } else {
        Extend(prefix, suffix, rows, n, frames, held);
        GreedyExtend(prefix, suffix, frames, held, encoded);
        held := held + [encoded];
        frameBytes := frameBytes + encodedBytes;
      }
      n := n + 1;
    }
    AllFramed(prefix, suffix, rows, frames, held);
    GreedyFront(prefix, suffix, frames, held);
    if |held| > 0 || |rows| == 0 {
      FitsIs(prefix, suffix, held);
      if |Line(prefix, suffix, held)| > MAX_FRAME_BYTES { return frames, true; }
      frames := frames + [held];
    }
    AllFramesFitIff(prefix, suffix, rows, frames);
    return frames, false;
  }

  lemma NothingYet(prefix: string, suffix: string, rows: seq<string>)
    ensures Progress(prefix, suffix, rows, 0, [], []) && Size(prefix, suffix, []) == |prefix| + |suffix|
    ensures FramesFit(prefix, suffix, rows, if |rows| > 0 then |rows| - 1 else 0, []) && Flatten([]) == []
    ensures Greedy(prefix, suffix, [] + [[]]) && Greedy(prefix, suffix, [])
  {
  }

  lemma AllFramed(prefix: string, suffix: string, rows: seq<string>, frames: seq<seq<string>>, held: seq<string>)
    requires Progress(prefix, suffix, rows, |rows|, frames, held) && (rows == [] ==> frames == [])
    ensures var n := if |rows| > 0 then |rows| - 1 else 0;
            && (rows != [] ==> !FirstTooLarge(prefix, suffix, rows) && (Fits(prefix, suffix, held) <==> !LastTooLarge(prefix, suffix, rows)))
            && (rows == [] ==> (Fits(prefix, suffix, held) <==> Base(prefix, suffix) <= MAX_FRAME_BYTES))
            && Flatten(frames) <= rows && Flatten(frames + [held]) == rows
            && FramesFit(prefix, suffix, rows, n, frames) && LargeWritten(prefix, suffix, rows, n, frames)
            && (Fits(prefix, suffix, held) ==> FramesFit(prefix, suffix, rows, n, frames + [held])
                                               && LargeWritten(prefix, suffix, rows, n, frames + [held]))
  {
    hide TooLarge;
    assert rows[..|rows|] == rows;
    FlattenMore(frames, held);
    SizeOf(prefix, suffix, [], "");
    if rows != [] { LastFits(prefix, suffix, rows, frames, held); }
  }

  lemma FitsIs(prefix: string, suffix: string, rows: seq<string>)
    ensures Fits(prefix, suffix, rows) <==> |Line(prefix, suffix, rows)| <= MAX_FRAME_BYTES
    ensures rows != [] && |rows| == 1 ==> (TooLarge(prefix, suffix, rows[0]) <==> !Fits(prefix, suffix, rows))
  {
    if |rows| == 1 { assert rows == [rows[0]]; }
  }

  /** What the loop still holds at the end is too large exactly when the last row is. */
  lemma LastFits(prefix: string, suffix: string, rows: seq<string>, frames: seq<seq<string>>, held: seq<string>)
    requires rows != [] && Progress(prefix, suffix, rows, |rows|, frames, held)
    ensures Fits(prefix, suffix, held) <==> !LastTooLarge(prefix, suffix, rows)
    ensures FramesFit(prefix, suffix, rows, |rows| - 1, frames) && LargeWritten(prefix, suffix, rows, |rows| - 1, frames)
    ensures Fits(prefix, suffix, held) ==> FramesFit(prefix, suffix, rows, |rows| - 1, frames + [held])
                                           && LargeWritten(prefix, suffix, rows, |rows| - 1, frames + [held])
  {
    var n, m := |rows|, |rows| - |held|;
    assert held[|held| - 1] == rows[n - 1];
    RowWithin(prefix, suffix, held, |held| - 1);
    if |held| == 1 { assert held == [rows[n - 1]]; }
    forall k | 0 <= k < |frames| ensures Fits(prefix, suffix, frames[k]) || OnlyLarge(prefix, suffix, rows, n - 1, frames[k]) {
      if OnlyLarge(prefix, suffix, rows, m, frames[k]) {
        var i :| 0 < i < |rows| && i < m && frames[k] == [rows[i]] && TooLarge(prefix, suffix, rows[i]);
        assert OnlyLarge(prefix, suffix, rows, n - 1, frames[k]);
      }
    }
    forall i | 0 < i < |rows| && i < n - 1 && TooLarge(prefix, suffix, rows[i]) ensures [rows[i]] in frames {
      if i >= m {
        assert held[i - m] == rows[i];
        RowWithin(prefix, suffix, held, i - m);
      }
    }
  }

  predicate AllFit(prefix: string, suffix: string, frames: seq<seq<string>>) {
    forall k | 0 <= k < |frames| :: Fits(prefix, suffix, frames[k])
  }

  /** Some row strictly between the first and the last is too large for a frame of its own. */
  ghost predicate LargeBetween(prefix: string, suffix: string, rows: seq<string>) {
    exists i :: 0 < i < |rows| - 1 && TooLarge(prefix, suffix, rows[i])
  }

  /** All frames are within the bound exactly when no row strictly between the first and the last is too large. */
  lemma AllFramesFitIff(prefix: string, suffix: string, rows: seq<string>, frames: seq<seq<string>>)
    requires FramesFit(prefix, suffix, rows, if |rows| > 0 then |rows| - 1 else 0, frames)
    requires LargeWritten(prefix, suffix, rows, if |rows| > 0 then |rows| - 1 else 0, frames)
    ensures AllFit(prefix, suffix, frames) <==> !LargeBetween(prefix, suffix, rows)
  {
    hide Fits;
    if i :| 0 < i < |rows| - 1 && TooLarge(prefix, suffix, rows[i]) {
      var k :| 0 <= k < |frames| && frames[k] == [rows[i]];
      assert !Fits(prefix, suffix, frames[k]);
    }
  }

  /** A row of one byte more than a frame may have. */
  function Oversized(): (row: string)
    ensures |row| == MAX_FRAME_BYTES + 1
  {
    seq(MAX_FRAME_BYTES + 1, _ => '0')
  }

  const LARGE_BATCH: seq<string> := ["1", Oversized(), "2"]

  lemma LargeBatchSizes()
    ensures !FirstTooLarge("", "", LARGE_BATCH) && !LastTooLarge("", "", LARGE_BATCH) && LargeBetween("", "", LARGE_BATCH)
  {
    hide Oversized;
    var rows := LARGE_BATCH;
    SizeOf("", "", [], rows[0]);
    SizeOf("", "", [], rows[1]);
    SizeOf("", "", [], rows[2]);
    assert forall row: string :: [] + [row] == [row];
    assert TooLarge("", "", rows[1]);
  }

  /** Between two rows of one byte the oversized row gets through: framing the batch succeeds with a frame over the bound. */
  method LargeRowEscapes() returns (frames: seq<seq<string>>)
    ensures Flatten(frames) == LARGE_BATCH && !AllFit("", "", frames)
  {
    hide FirstTooLarge; hide LastTooLarge; hide LargeBetween; hide AllFit; hide Flatten;
    LargeBatchSizes();
    var failed;
    frames, failed := FrameBatch("", "", LARGE_BATCH);
    assert |LARGE_BATCH| == 3;
  }
}
