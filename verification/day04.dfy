/** Day 4 (`src/days/day04/mod.rs`): pairs of inclusive section ranges.
    Part one counts the pairs where one range contains the other, part two
    the pairs that overlap at all. */
module Day04 {
  import opened Wrappers
  import opened Utils

  /** `RangeInclusive<usize>`: `start..=end`; empty when `start > end`. */
  datatype Range = Range(start: nat, end: nat)

  predicate Contains(r: Range, x: nat)
  {
    r.start <= x <= r.end
  }

  predicate IsEmpty(r: Range)
  {
    r.start > r.end
  }

  /** `ranges_fully_overlap`: one range holds both ends of the other. */
  predicate RangesFullyOverlap(a: Range, b: Range)
  {
    (Contains(a, b.start) && Contains(a, b.end)) || (Contains(b, a.start) && Contains(b, a.end))
  }

  /** `ranges_overlap`: one range holds an end of the other. */
  predicate RangesOverlap(a: Range, b: Range)
  {
    Contains(a, b.start) || Contains(b, a.start) || Contains(a, b.end) || Contains(b, a.end)
  }

  /** Both tests ignore the order of the pair, and containment implies overlap. */
  lemma OverlapSymmetric(a: Range, b: Range)
    ensures RangesFullyOverlap(a, b) <==> RangesFullyOverlap(b, a)
    ensures RangesOverlap(a, b) <==> RangesOverlap(b, a)
    ensures RangesFullyOverlap(a, b) ==> RangesOverlap(a, b)
  {
  }

  /** For non-empty ranges the end-point test is the interval test: the
      ranges overlap exactly when they share a section. */
  lemma OverlapIsSharedSection(a: Range, b: Range)
    requires !IsEmpty(a) && !IsEmpty(b)
    ensures RangesOverlap(a, b) <==> a.start <= b.end && b.start <= a.end
    ensures RangesOverlap(a, b) <==> exists x :: Contains(a, x) && Contains(b, x)
  {
    if a.start <= b.end && b.start <= a.end {
      var x := if a.start <= b.start then b.start else a.start;
      assert Contains(a, x) && Contains(b, x);
    }
  }

  /** For non-empty ranges full overlap is containment of every section. */
  lemma FullOverlapIsContainment(a: Range, b: Range)
    requires !IsEmpty(a) && !IsEmpty(b)
    ensures RangesFullyOverlap(a, b) <==>
      (forall x :: Contains(b, x) ==> Contains(a, x)) || (forall x :: Contains(a, x) ==> Contains(b, x))
  {
    if (forall x :: Contains(b, x) ==> Contains(a, x)) {
      assert Contains(b, b.start) && Contains(b, b.end);
    }
    if (forall x :: Contains(a, x) ==> Contains(b, x)) {
      assert Contains(a, a.start) && Contains(a, a.end);
    }
  }

  /** The end-point test says nothing sensible about empty ranges: an empty
      range whose start lies inside the other range counts as overlapping. */
  lemma EmptyRangeCanOverlap()
    ensures IsEmpty(Range(5, 3)) && RangesOverlap(Range(5, 3), Range(0, 10))
  {
  }

  // ---------------------------------------------------------------------------
  // Parsing
  // ---------------------------------------------------------------------------

  /** A range `"start-end"`: both ends parse as numbers. */
  predicate IsRangeText(s: string)
  {
    SplitOnce(s, '-').Some?
    && ParseNat(SplitOnce(s, '-').value.0).Some?
    && ParseNat(SplitOnce(s, '-').value.1).Some?
  }

  function ParseRange(s: string): Range
    requires IsRangeText(s)
  {
    var parts := SplitOnce(s, '-').value;
    Range(ParseNat(parts.0).value, ParseNat(parts.1).value)
  }

  /** A line the source can read: `"a-b,c-d"`. Anything else makes it panic. */
  predicate IsPairText(pair: string)
  {
    SplitOnce(pair, ',').Some?
    && IsRangeText(SplitOnce(pair, ',').value.0)
    && IsRangeText(SplitOnce(pair, ',').value.1)
  }

  /** `parse_pair_string`. */
  function ParsePairString(pair: string): (Range, Range)
    requires IsPairText(pair)
  {
    var halves := SplitOnce(pair, ',').value;
    (ParseRange(halves.0), ParseRange(halves.1))
  }

  /** How a pair of ranges is written in the puzzle input. */
  function ShowPair(a: Range, b: Range): string
  {
    ShowNat(a.start) + "-" + ShowNat(a.end) + "," + ShowNat(b.start) + "-" + ShowNat(b.end)
  }

  /** `split_once` finds the separator right after a part that does not contain it. */
  lemma SplitOnceAfter(a: string, c: char, b: string)
    requires c !in a
    ensures SplitOnce(a + [c] + b, c) == Some((a, b))
  {
    var t := a + [c] + b;
    assert t[|a|] == c;
    var x := SplitOnce(t, c).value.0;
    var y := SplitOnce(t, c).value.1;
    assert t == x + [c] + y;
    // both `a` and `x` end just before the first `c` of `t`
    assert t[|x|] == c;
    assert forall k :: 0 <= k < |a| ==> t[k] == a[k];
    assert forall k :: 0 <= k < |x| ==> t[k] == x[k];
    assert |x| == |a|;
    assert x == t[..|x|] && a == t[..|a|];
    assert y == t[|x| + 1..] && b == t[|a| + 1..];
  }

  lemma DigitsAvoid(n: nat, c: char)
    requires !IsDigit(c)
    ensures c !in ShowNat(n)
  {
  }

  /** Parsing the written form of a pair gives the pair back. */
  lemma ParseShowPair(a: Range, b: Range)
    ensures IsPairText(ShowPair(a, b))
    ensures ParsePairString(ShowPair(a, b)) == (a, b)
  {
    var left := ShowNat(a.start) + "-" + ShowNat(a.end);
    var right := ShowNat(b.start) + "-" + ShowNat(b.end);
    assert ShowPair(a, b) == left + [','] + right;
    DigitsAvoid(a.start, ','); DigitsAvoid(a.end, ',');
    DigitsAvoid(a.start, '-'); DigitsAvoid(b.start, '-');
    assert ',' !in left;
    SplitOnceAfter(left, ',', right);
    SplitOnceAfter(ShowNat(a.start), '-', ShowNat(a.end));
    SplitOnceAfter(ShowNat(b.start), '-', ShowNat(b.end));
    ParseShowNat(a.start); ParseShowNat(a.end);
    ParseShowNat(b.start); ParseShowNat(b.end);
  }

  /** The doc comment's example: `"2-4,6-8"` is the pair `2..=4`, `6..=8`. */
  lemma ParsePairExample()
    ensures IsPairText("2-4,6-8") && ParsePairString("2-4,6-8") == (Range(2, 4), Range(6, 8))
  {
    ParseShowPair(Range(2, 4), Range(6, 8));
    ShowPairExample();
  }

  /** The pair `2..=4`, `6..=8` is written `"2-4,6-8"`. */
  lemma ShowPairExample()
    ensures ShowPair(Range(2, 4), Range(6, 8)) == "2-4,6-8"
  {
    assert ShowNat(2) == "2" && ShowNat(4) == "4" && ShowNat(6) == "6" && ShowNat(8) == "8";
  }

  // ---------------------------------------------------------------------------
  // The two parts
  // ---------------------------------------------------------------------------

  /** `part_one` on the parsed pairs: the number of pairs where one range
      contains the other. */
  function CountFullyOverlapping(pairs: seq<(Range, Range)>): (n: nat)
    ensures n <= |pairs|
  {
    if |pairs| == 0 then 0
    else (if RangesFullyOverlap(pairs[0].0, pairs[0].1) then 1 else 0) + CountFullyOverlapping(pairs[1..])
  }

  /** `part_two` on the parsed pairs: the number of overlapping pairs. */
  function CountOverlapping(pairs: seq<(Range, Range)>): (n: nat)
    ensures n <= |pairs|
  {
    if |pairs| == 0 then 0
    else (if RangesOverlap(pairs[0].0, pairs[0].1) then 1 else 0) + CountOverlapping(pairs[1..])
  }

  /** Every fully overlapping pair also overlaps, so part one never exceeds
      part two. */
  lemma {:induction false} PartOneAtMostPartTwo(pairs: seq<(Range, Range)>)
    ensures CountFullyOverlapping(pairs) <= CountOverlapping(pairs)
  {
    if |pairs| > 0 {
      OverlapSymmetric(pairs[0].0, pairs[0].1);
      PartOneAtMostPartTwo(pairs[1..]);
    }
  }

  /** The count is additive over concatenation (the fold of the source). */
  lemma {:induction false} CountOverlappingAppend(a: seq<(Range, Range)>, b: seq<(Range, Range)>)
    ensures CountOverlapping(a + b) == CountOverlapping(a) + CountOverlapping(b)
  {
    if |a| > 0 {
      assert (a + b)[1..] == a[1..] + b;
      CountOverlappingAppend(a[1..], b);
    } else {
      assert a + b == b;
    }
  }

  /** Every line of the input is a pair the source can read. */
  predicate ValidInput(input: string)
  {
    forall i :: 0 <= i < |Lines(input)| ==> IsPairText(Lines(input)[i])
  }

  /** `parse_input`: one pair per line. */
  function ParseInput(input: string): (pairs: seq<(Range, Range)>)
    requires ValidInput(input)
    ensures |pairs| == |Lines(input)|
    ensures forall i :: 0 <= i < |pairs| ==> pairs[i] == ParsePairString(Lines(input)[i])
  {
    var lines := Lines(input);
    seq(|lines|, i requires 0 <= i < |lines| => ParsePairString(lines[i]))
  }

  /** `part_one`: the number of lines whose ranges contain one another. */
  function PartOne(input: string): (n: nat)
    requires ValidInput(input)
    ensures n <= |Lines(input)|
  {
    CountFullyOverlapping(ParseInput(input))
  }

  /** `part_two`: the number of lines whose ranges overlap; never fewer than
      part one's. */
  function PartTwo(input: string): (n: nat)
    requires ValidInput(input)
    ensures n <= |Lines(input)|
    ensures PartOne(input) <= n
  {
    PartOneAtMostPartTwo(ParseInput(input));
    CountOverlapping(ParseInput(input))
  }

  /** The example of the tests: 2 contained pairs and 4 overlapping ones. */
  lemma Example()
    ensures CountFullyOverlapping([(Range(2, 4), Range(6, 8)), (Range(2, 3), Range(4, 5)),
      (Range(5, 7), Range(7, 9)), (Range(2, 8), Range(3, 7)), (Range(6, 6), Range(4, 6)),
      (Range(2, 6), Range(4, 8))]) == 2
    ensures CountOverlapping([(Range(2, 4), Range(6, 8)), (Range(2, 3), Range(4, 5)),
      (Range(5, 7), Range(7, 9)), (Range(2, 8), Range(3, 7)), (Range(6, 6), Range(4, 6)),
      (Range(2, 6), Range(4, 8))]) == 4
  {
  }
}
