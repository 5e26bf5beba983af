/** Day 6 (`src/days/day06/mod.rs`): the end of the first window of a given
    length whose characters are pairwise distinct. The source slides the
    window with a skip: when a window holds a repeated pair, every window that
    still contains the left element of that pair is skipped. */
module Day06 {
  import opened Wrappers

  /** The characters of `w` are pairwise distinct. */
  predicate AllDistinct(w: seq<char>)
  {
    forall i, j :: 0 <= i < j < |w| ==> w[i] != w[j]
  }

  /** The window of length `len` that ends just before position `e` is
      pairwise distinct (the puzzle's answer is such an `e`). */
  predicate DistinctEndingAt(input: seq<char>, len: nat, e: nat)
  {
    len <= e <= |input| && AllDistinct(input[e - len..e])
  }

  /** Reference: the first end position from `e` on, found by trying every
      window in turn, without any skip. */
  function FirstDistinctEndFrom(input: seq<char>, len: nat, e: nat): (r: Option<nat>)
    requires len <= e
    ensures r.Some? ==> e <= r.value && DistinctEndingAt(input, len, r.value)
    ensures r.Some? ==> forall e' :: e <= e' < r.value ==> !DistinctEndingAt(input, len, e')
    ensures r.None? ==> forall e' :: e <= e' ==> !DistinctEndingAt(input, len, e')
    decreases |input| - e
  {
    if e > |input| then None
    else if AllDistinct(input[e - len..e]) then Some(e)
    else FirstDistinctEndFrom(input, len, e + 1)
  }

  function FirstDistinctEnd(input: seq<char>, len: nat): Option<nat>
  {
    FirstDistinctEndFrom(input, len, len)
  }

  /** The two inner loops of `find_unique_sequence_end` on one window: the
      characters are taken from the right (`i`), each compared with those to
      its left, nearest first (`j`). On the first equal pair the window
      advance `advance_by = len - j - i - 1` is returned; it is one more than
      the position of the left element of the pair, so it is at least 1 and
      `advance_by - 1` cannot underflow. */
  method FindRepeat(w: seq<char>) returns (advance: Option<nat>)
    ensures advance.None? <==> AllDistinct(w)
    ensures advance.Some? ==> 1 <= advance.value < |w|
    ensures advance.Some? ==>
      exists p1 :: advance.value <= p1 < |w| && w[p1] == w[advance.value - 1]
  {
    var i := 0;
    while i < |w|
      invariant 0 <= i <= |w|
      invariant forall p1, p2 :: |w| - i <= p1 < |w| && 0 <= p2 < p1 ==> w[p2] != w[p1]
    {
      var j := 0;
      while j < |w| - i - 1
        invariant 0 <= j <= |w| - i - 1
        invariant forall p2 :: |w| - i - 1 - j <= p2 < |w| - i - 1 ==> w[p2] != w[|w| - 1 - i]
      {
        if w[|w| - 1 - i] == w[|w| - i - 2 - j] {
          var advanceBy := |w| - j - i - 1;
          assert advanceBy <= |w| - 1 - i && w[|w| - 1 - i] == w[advanceBy - 1];
          return Some(advanceBy);
        }
        j := j + 1;
      }
      i := i + 1;
    }
    return None;
  }

  /** Every window starting in `[start, start + advance)` contains both
      positions of the repeated pair, so none of them is distinct. */
  lemma SkippedWindowsRepeat(input: seq<char>, len: nat, start: nat, advance: nat, p1: nat)
    requires start + len <= |input|
    requires 1 <= advance <= p1 < len
    requires input[start + p1] == input[start + advance - 1]
    ensures forall e :: start + len <= e < start + advance + len ==> !DistinctEndingAt(input, len, e)
  {
    forall e | start + len <= e < start + advance + len
      ensures !DistinctEndingAt(input, len, e)
    {
      if e <= |input| {
        var w := input[e - len..e];
        assert w[start + advance - 1 - (e - len)] == w[start + p1 - (e - len)];
      }
    }
  }

  /** `find_unique_sequence_end`: the end of the first pairwise-distinct
      window of length `len`, or `None` when there is none (in particular when
      the input is shorter than `len`). `chars.windows(0)` panics, hence
      `len > 0`. The skip never passes over a distinct window, so the answer
      is the one the plain search gives. */
  method FindUniqueSequenceEnd(input: seq<char>, len: nat) returns (r: Option<nat>)
    requires len > 0
    ensures r.Some? ==> len <= r.value <= |input| && AllDistinct(input[r.value - len..r.value])
    ensures r.Some? ==> forall e :: len <= e < r.value ==> !DistinctEndingAt(input, len, e)
    ensures r.None? ==> forall e :: len <= e ==> !DistinctEndingAt(input, len, e)
    ensures r == FirstDistinctEnd(input, len)
  {
    var start: nat := 0;
    while start + len <= |input|
      invariant forall e :: len <= e < start + len ==> !DistinctEndingAt(input, len, e)
      decreases |input| - start
    {
      var repeat := FindRepeat(input[start..start + len]);
      match repeat {
        case None =>
          r := Some(start + len);
          CompareWithReference(input, len, r);
          return;
        case Some(advance) =>
          var w := input[start..start + len];
          var p1 :| advance <= p1 < len && w[p1] == w[advance - 1];
          SkippedWindowsRepeat(input, len, start, advance, p1);
          start := start + advance;
      }
    }
    r := None;
    CompareWithReference(input, len, r);
  }

  /** A first distinct end (or the absence of one) is the reference's answer. */
  lemma CompareWithReference(input: seq<char>, len: nat, r: Option<nat>)
    requires r.Some? ==> DistinctEndingAt(input, len, r.value)
    requires r.Some? ==> forall e :: len <= e < r.value ==> !DistinctEndingAt(input, len, e)
    requires r.None? ==> forall e :: len <= e ==> !DistinctEndingAt(input, len, e)
    ensures r == FirstDistinctEnd(input, len)
  {
  }

  /** `part_one`: the end of the first start-of-packet marker (4 distinct characters). */
  method PartOne(input: seq<char>) returns (r: Option<nat>)
    ensures r == FirstDistinctEnd(input, 4)
    ensures r.Some? ==> 4 <= r.value <= |input| && AllDistinct(input[r.value - 4..r.value])
  {
    r := FindUniqueSequenceEnd(input, 4);
  }

  /** `part_two`: the end of the first start-of-message marker (14 distinct characters). */
  method PartTwo(input: seq<char>) returns (r: Option<nat>)
    ensures r == FirstDistinctEnd(input, 14)
    ensures r.Some? ==> 14 <= r.value <= |input| && AllDistinct(input[r.value - 14..r.value])
  {
    r := FindUniqueSequenceEnd(input, 14);
  }

  /** Two positions of the window of length `len` ending at `e` carry the
      same character, so that window is not distinct. */
  lemma RepeatIn(input: seq<char>, len: nat, e: nat, i: nat, j: nat)
    requires len <= e <= |input|
    requires e - len <= i < j < e && input[i] == input[j]
    ensures !DistinctEndingAt(input, len, e)
  {
    assert input[e - len..e][i - (e - len)] == input[e - len..e][j - (e - len)];
  }

  /** The characters of the first example of the tests that decide both parts. */
  predicate ExamplePrefix(s: seq<char>)
  {
    && |s| >= 19
    && s[0] == 'm' && s[1] == 'j' && s[2] == 'q' && s[3] == 'j' && s[4] == 'p'
    && s[5] == 'q' && s[6] == 'm' && s[7] == 'g' && s[8] == 'b' && s[9] == 'l'
    && s[10] == 'j' && s[11] == 's' && s[12] == 'p' && s[13] == 'h' && s[14] == 'd'
    && s[15] == 'z' && s[16] == 't' && s[17] == 'n' && s[18] == 'v'
  }

  lemma ExamplePrefixHolds(s: seq<char>)
    requires s == "mjqjpqmgbljsphdztnvjfqwrcgsmlb"
    ensures ExamplePrefix(s)
  {
    assert s[0] == 'm'; assert s[1] == 'j'; assert s[2] == 'q'; assert s[3] == 'j'; assert s[4] == 'p';
    assert s[5] == 'q'; assert s[6] == 'm'; assert s[7] == 'g'; assert s[8] == 'b'; assert s[9] == 'l';
    assert s[10] == 'j'; assert s[11] == 's'; assert s[12] == 'p'; assert s[13] == 'h'; assert s[14] == 'd';
    assert s[15] == 'z'; assert s[16] == 't'; assert s[17] == 'n'; assert s[18] == 'v';
  }

  lemma PartOneOnPrefix(s: seq<char>)
    requires ExamplePrefix(s)
    ensures FirstDistinctEnd(s, 4) == Some(7)
  {
    RepeatIn(s, 4, 4, 1, 3);
    RepeatIn(s, 4, 5, 1, 3);
    RepeatIn(s, 4, 6, 2, 5);
    var w := s[3..7];
    assert w[0] == s[3] && w[1] == s[4] && w[2] == s[5] && w[3] == s[6];
    CompareWithReference(s, 4, Some(7));
  }

  lemma PartTwoOnPrefix(s: seq<char>)
    requires ExamplePrefix(s)
    ensures FirstDistinctEnd(s, 14) == Some(19)
  {
    RepeatIn(s, 14, 14, 0, 6);
    RepeatIn(s, 14, 15, 1, 3);
    RepeatIn(s, 14, 16, 2, 5);
    RepeatIn(s, 14, 17, 3, 10);
    RepeatIn(s, 14, 18, 4, 12);
    var w := s[5..19];
    assert forall i :: 0 <= i < 14 ==> w[i] == s[i + 5];
    CompareWithReference(s, 14, Some(19));
  }

  /** The first example of the tests: the start-of-packet marker ends at 7
      and the start-of-message marker at 19. */
  lemma Example(s: seq<char>)
    requires s == "mjqjpqmgbljsphdztnvjfqwrcgsmlb"
    ensures FirstDistinctEnd(s, 4) == Some(7)
    ensures FirstDistinctEnd(s, 14) == Some(19)
  {
    ExamplePrefixHolds(s);
    PartOneOnPrefix(s);
    PartTwoOnPrefix(s);
  }
}
