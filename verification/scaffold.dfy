/** The line locator and splicer of the scaffolding tool (`src/bin/scaffold.rs`).

    The tool keeps two source files in step with the puzzle days: a `match`
    table whose arms start `1 => `, `2 => `, ... and a module list of
    `pub mod day01;` lines. For a new day it finds where the day's line belongs
    (`index_of_missing_day_line`) and splices the line in there
    (`insert_below_line`).

    The regex and the character range that pick the day number out of a line
    are abstracted as a classifier: every line is one of
    - `NoMatch`     the pattern does not match the line;
    - `MatchNoDay`  the pattern matches but the sliced text is not a `u8`
                    (the catch-all arm `_ => ` of the match table);
    - `Day(n)`      the pattern matches and the slice parses as the day `n`. */
module Scaffold {
  import opened Wrappers

  /** Rust's `u8`: the type of the requested day and of every parsed day. */
  type u8 = x: nat | x < 256

  datatype LineClass = NoMatch | MatchNoDay | Day(n: u8)

  /** The classes of the lines of a file, in file order. */
  function Classify(lines: seq<string>, classify: string -> LineClass): (cls: seq<LineClass>)
    ensures |cls| == |lines|
    ensures forall i :: 0 <= i < |lines| ==> cls[i] == classify(lines[i])
  {
    if |lines| == 0 then [] else [classify(lines[0])] + Classify(lines[1..], classify)
  }

  // ---------------------------------------------------------------------------
  // The scan
  // ---------------------------------------------------------------------------

  /** The forward pass of `index_of_missing_day_line` from line `idx` on, with
      `prev` the value of `prev_line_day` when line `idx` is reached. A day
      line sets `prev` only while it is still unset, so `prev` is the first
      day seen. The result is the position at which the new line is to be
      spliced, or `None` when nothing is to be inserted. */
  function Scan(cls: seq<LineClass>, day: u8, idx: nat, prev: Option<u8>): (r: Option<nat>)
    requires idx <= |cls|
    requires prev.Some? ==> idx > 0
    ensures r.Some? ==> r.value <= |cls|
    decreases |cls| - idx
  {
    if idx == |cls| then
      (if prev.Some? then Some(idx) else None)
    else
      match cls[idx]
      case Day(lineDay) =>
        var first := if prev.None? then lineDay else prev.value;
        if lineDay == day then None
        else if first < day && lineDay > day then Some(idx)
        else Scan(cls, day, idx + 1, Some(first))
      case MatchNoDay =>
        Scan(cls, day, idx + 1, prev)
      case NoMatch =>
        if prev.Some? then Some(idx - 1) else Scan(cls, day, idx + 1, prev)
  }

  /** Where the line for `day` goes in a file whose lines have classes `cls`. */
  function Locate(cls: seq<LineClass>, day: u8): Option<nat>
  {
    Scan(cls, day, 0, None)
  }

  /** `index_of_missing_day_line`: one forward pass over the lines, as the
      source writes it. Any index returned is a legal splice point. */
  method IndexOfMissingDayLine(day: u8, lines: seq<string>, classify: string -> LineClass)
    returns (r: Option<nat>)
    ensures r == Locate(Classify(lines, classify), day)
    ensures r.Some? ==> r.value <= |lines|
  {
    ghost var cls := Classify(lines, classify);
    var prevLineDay: Option<u8> := None;
    var lineIdx: nat := 0;
    while lineIdx < |lines|
      invariant lineIdx <= |lines|
      invariant prevLineDay.Some? ==> lineIdx > 0
      invariant Scan(cls, day, lineIdx, prevLineDay) == Locate(cls, day)
    {
      match classify(lines[lineIdx]) {
        case Day(lineDay) =>
          if prevLineDay.None? {
            prevLineDay := Some(lineDay);
          }
          if lineDay == day {
            return None;
          }
          if prevLineDay.value < day && lineDay > day {
            return Some(lineIdx);
          }
        case MatchNoDay =>
        case NoMatch =>
          if prevLineDay.Some? {
            return Some(lineIdx - 1);
          }
      }
      lineIdx := lineIdx + 1;
    }
    if prevLineDay.Some? {
      return Some(lineIdx);
    }
    return None;
  }

  // ---------------------------------------------------------------------------
  // What the scan computes
  // ---------------------------------------------------------------------------

  /** The index of the first line that carries a day, if there is one. */
  function FirstDayFrom(cls: seq<LineClass>, from: nat): (r: Option<nat>)
    requires from <= |cls|
    ensures r.Some? ==> from <= r.value < |cls| && cls[r.value].Day?
    ensures r.Some? ==> forall j :: from <= j < r.value ==> !cls[j].Day?
    ensures r.None? ==> forall j :: from <= j < |cls| ==> !cls[j].Day?
    decreases |cls| - from
  {
    if from == |cls| then None
    else if cls[from].Day? then Some(from)
    else FirstDayFrom(cls, from + 1)
  }

  function FirstDay(cls: seq<LineClass>): Option<nat>
  {
    FirstDayFrom(cls, 0)
  }

  /** A line that the scan passes over once the first day `first` is known:
      a match without a day, or a day that is neither the requested day nor
      the upper end of a gap `first < day < n`. */
  predicate PassesOver(c: LineClass, day: u8, first: u8)
  {
    c.MatchNoDay? || (c.Day? && c.n != day && !(first < day < c.n))
  }

  /** Before the first day line the scan passes over everything, whatever the line. */
  lemma {:induction false} ScanBeforeFirstDay(cls: seq<LineClass>, day: u8, idx: nat, f: nat)
    requires idx <= f < |cls|
    requires forall j :: idx <= j < f ==> !cls[j].Day?
    ensures Scan(cls, day, idx, None) == Scan(cls, day, f, None)
    decreases f - idx
  {
    if idx < f {
      ScanBeforeFirstDay(cls, day, idx + 1, f);
    }
  }

  /** Once `prev_line_day` holds the first day, lines the scan passes over
      leave it as it is. */
  lemma {:induction false} ScanPassesOver(cls: seq<LineClass>, day: u8, first: u8, idx: nat, k: nat)
    requires 0 < idx <= k <= |cls|
    requires forall j :: idx <= j < k ==> PassesOver(cls[j], day, first)
    ensures Scan(cls, day, idx, Some(first)) == Scan(cls, day, k, Some(first))
    decreases k - idx
  {
    if idx < k {
      ScanPassesOver(cls, day, first, idx + 1, k);
    }
  }

  /** The full outcome of the scan. Let line `f` be the first day line, with
      day `first`, and let the scan pass over lines `f .. k-1`. Then line `k`
      decides:
      - end of file: append, at `|cls|`;
      - the requested day itself: `None`, the line already exists;
      - a day `n` with `first < day < n`: insert at `k`, above that line;
        the lower bound is the FIRST day of the block, not the previous one;
      - a line the pattern does not match: the block has ended, insert at
        `k - 1` (and `k >= 1`, so the subtraction cannot underflow).
      A match without a day never decides anything (`PassesOver`). */
  lemma {:induction false} LocateOutcome(cls: seq<LineClass>, day: u8, f: nat, k: nat)
    requires FirstDay(cls) == Some(f)
    requires f <= k <= |cls|
    requires forall j :: f <= j < k ==> PassesOver(cls[j], day, cls[f].n)
    ensures k == |cls| ==> Locate(cls, day) == Some(|cls|)
    ensures k < |cls| && cls[k] == Day(day) ==> Locate(cls, day) == None
    ensures k < |cls| && cls[k].Day? && cls[f].n < day < cls[k].n ==> Locate(cls, day) == Some(k)
    ensures k < |cls| && cls[k].NoMatch? ==> k >= 1 && Locate(cls, day) == Some(k - 1)
  {
    var first := cls[f].n;
    ScanBeforeFirstDay(cls, day, 0, f);
    if k > f {
      assert PassesOver(cls[f], day, first);
      assert Scan(cls, day, f, None) == Scan(cls, day, f + 1, Some(first));
      ScanPassesOver(cls, day, first, f + 1, k);
    }
  }

  /** Without any day line in the file there is nothing to anchor the new
      line to: the result is `None`. Lines that match without a day never
      count as day lines. */
  lemma {:induction false} LocateWithoutDays(cls: seq<LineClass>, day: u8)
    requires forall j :: 0 <= j < |cls| ==> !cls[j].Day?
    ensures Locate(cls, day) == None
  {
    NoDaysFrom(cls, day, 0);
  }

  lemma {:induction false} NoDaysFrom(cls: seq<LineClass>, day: u8, idx: nat)
    requires idx <= |cls|
    requires forall j :: idx <= j < |cls| ==> !cls[j].Day?
    ensures Scan(cls, day, idx, None) == None
    decreases |cls| - idx
  {
    if idx < |cls| {
      NoDaysFrom(cls, day, idx + 1);
    }
  }

  /** Conversely, a `Some` result means the file has a day line at or above
      the returned index. */
  lemma {:induction false} LocateSomeHasDay(cls: seq<LineClass>, day: u8)
    requires Locate(cls, day).Some?
    ensures FirstDay(cls).Some? && FirstDay(cls).value <= Locate(cls, day).value
  {
    if FirstDay(cls).None? {
      LocateWithoutDays(cls, day);
    } else {
      var f := FirstDay(cls).value;
      ScanBeforeFirstDay(cls, day, 0, f);
      ScanFromFirstDayIsBelow(cls, day, cls[f].n, f + 1);
    }
  }

  lemma {:induction false} ScanFromFirstDayIsBelow(cls: seq<LineClass>, day: u8, first: u8, idx: nat)
    requires 0 < idx <= |cls|
    requires Scan(cls, day, idx, Some(first)).Some?
    ensures Scan(cls, day, idx, Some(first)).value >= idx - 1
    decreases |cls| - idx
  {
    if idx < |cls| && Scan(cls, day, idx, Some(first)) == Scan(cls, day, idx + 1, Some(first)) {
      ScanFromFirstDayIsBelow(cls, day, first, idx + 1);
    }
  }

  // ---------------------------------------------------------------------------
  // The splice
  // ---------------------------------------------------------------------------

  /** `insert_below_line`: the new line becomes line `i` and the lines from
      `i` on move down by one. The slices `lines[0..i]` and `lines[i..]` make
      the source panic for `i > |lines|`, hence the precondition. */
  function InsertBelowLine<T>(lines: seq<T>, content: T, i: nat): (r: seq<T>)
    requires i <= |lines|
    ensures |r| == |lines| + 1
    ensures r[i] == content
    ensures forall j :: 0 <= j < i ==> r[j] == lines[j]
    ensures forall j :: i <= j < |lines| ==> r[j + 1] == lines[j]
  {
    lines[..i] + [content] + lines[i..]
  }

  /** Dropping the spliced line gives the original file back, and the file
      gains exactly one line. */
  lemma InsertBelowLineRemovable<T>(lines: seq<T>, content: T, i: nat)
    requires i <= |lines|
    ensures var r := InsertBelowLine(lines, content, i);
      r[..i] + r[i + 1..] == lines && multiset(r) == multiset(lines) + multiset{content}
  {
    var r := InsertBelowLine(lines, content, i);
    assert r[..i] == lines[..i];
    assert r[i + 1..] == lines[i..];
    assert lines == lines[..i] + lines[i..];
  }

  /** Classifying a spliced file is splicing the classes. */
  lemma ClassifyInsert(lines: seq<string>, classify: string -> LineClass, content: string, i: nat)
    requires i <= |lines|
    ensures Classify(InsertBelowLine(lines, content, i), classify)
         == InsertBelowLine(Classify(lines, classify), classify(content), i)
  {
    var a := Classify(InsertBelowLine(lines, content, i), classify);
    var b := InsertBelowLine(Classify(lines, classify), classify(content), i);
    assert |a| == |b|;
    forall j | 0 <= j < |a|
      ensures a[j] == b[j]
    {
      if j < i {
      } else if j == i {
      } else {
        assert InsertBelowLine(lines, content, i)[j] == lines[j - 1];
      }
    }
  }

  // ---------------------------------------------------------------------------
  // Idempotence
  // ---------------------------------------------------------------------------

  /** If the scan from `idx` answers `i`, the scan of the spliced file reaches
      the spliced line and stops there with `None`. */
  lemma {:induction false} ScanAfterInsert(cls: seq<LineClass>, day: u8, idx: nat, prev: Option<u8>, i: nat)
    requires idx <= i <= |cls|
    requires prev.Some? ==> idx > 0
    requires Scan(cls, day, idx, prev) == Some(i)
    ensures Scan(InsertBelowLine(cls, Day(day), i), day, idx, prev) == None
    decreases i - idx
  {
    var cls' := InsertBelowLine(cls, Day(day), i);
    if idx < i {
      assert cls'[idx] == cls[idx];
      match cls[idx]
      case Day(lineDay) =>
        var first := if prev.None? then lineDay else prev.value;
        ScanAfterInsert(cls, day, idx + 1, Some(first), i);
      case MatchNoDay =>
        ScanAfterInsert(cls, day, idx + 1, prev, i);
      case NoMatch =>
        ScanAfterInsert(cls, day, idx + 1, prev, i);
    }
  }

  /** Locating the day again after its line was spliced in gives `None`. */
  lemma LocateAfterInsert(cls: seq<LineClass>, day: u8, i: nat)
    requires Locate(cls, day) == Some(i)
    ensures i <= |cls|
    ensures Locate(InsertBelowLine(cls, Day(day), i), day) == None
  {
    ScanAfterInsert(cls, day, 0, None, i);
  }

  /** One patch of a file by the tool (`main`, scaffold.rs:222-239 and
      243-253): locate the day, splice the line in if an index was found. */
  function Patch(lines: seq<string>, classify: string -> LineClass, day: u8, content: string): seq<string>
  {
    match Locate(Classify(lines, classify), day)
    case None => lines
    case Some(i) => InsertBelowLine(lines, content, i)
  }

  /** Running the tool twice for the same day changes nothing the second time,
      provided the inserted line is recognised as that day's line. */
  lemma PatchIdempotent(lines: seq<string>, classify: string -> LineClass, day: u8, content: string)
    requires classify(content) == Day(day)
    ensures Patch(Patch(lines, classify, day, content), classify, day, content)
         == Patch(lines, classify, day, content)
    ensures |Patch(lines, classify, day, content)| <= |lines| + 1
  {
    var cls := Classify(lines, classify);
    match Locate(cls, day)
    case None =>
    case Some(i) =>
      ClassifyInsert(lines, classify, content, i);
      LocateAfterInsert(cls, day, i);
  }

  // ---------------------------------------------------------------------------
  // Worked cases
  // ---------------------------------------------------------------------------

  /** The file of the doc comment of `index_of_missing_day_line`:
      `match day {`, `1 => (),`, `3 => (),`, `_ => ()`, `}`. Day 2 goes at
      index 2, above the `3 => ()` line; the comment's `Some(1)` does not
      match the code. */
  lemma DocExample()
    ensures Locate([NoMatch, Day(1), Day(3), MatchNoDay, NoMatch], 2) == Some(2)
    ensures InsertBelowLine([NoMatch, Day(1), Day(3), MatchNoDay, NoMatch], Day(2), 2)
         == [NoMatch, Day(1), Day(2), Day(3), MatchNoDay, NoMatch]
  {
    LocateOutcome([NoMatch, Day(1), Day(3), MatchNoDay, NoMatch], 2, 1, 2);
  }

  /** A new last day goes above the catch-all arm: the block ends at `}` and
      the index is that of the line before it, `_ => ...`. */
  lemma CatchAllExample()
    ensures Locate([Day(1), Day(2), MatchNoDay, NoMatch], 3) == Some(2)
  {
    LocateOutcome([Day(1), Day(2), MatchNoDay, NoMatch], 3, 0, 3);
  }

  /** The module list ending at end of file: the new module is appended. */
  lemma AppendAtEndExample()
    ensures Locate([Day(1), Day(2)], 3) == Some(2)
  {
    LocateOutcome([Day(1), Day(2)], 3, 0, 2);
  }

  /** The gap test compares with the first day of the block, which is never
      overwritten: with days 3, 1, 5 the line for day 2 is not put between
      1 and 5 but appended at the end. */
  lemma FirstDayIsKept()
    ensures Locate([Day(3), Day(1), Day(5)], 2) == Some(3)
  {
    LocateOutcome([Day(3), Day(1), Day(5)], 2, 0, 3);
  }
}
