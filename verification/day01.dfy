/** Day 1 (`src/days/day01/mod.rs`): calorie counting. The input holds one
    list of numbers per elf, lists separated by a blank line. Part one is the
    largest list total, part two the sum of the three largest totals. */
module Day01 {
  import opened Wrappers
  import opened Utils

  /** Every line of every list is a number; anything else makes
      `parse_strings` panic. */
  predicate ValidInput(input: string)
  {
    forall g :: 0 <= g < |Split(input, "\n\n")| ==>
      forall l :: 0 <= l < |Split(Split(input, "\n\n")[g], "\n")| ==>
        ParseNat(Split(Split(input, "\n\n")[g], "\n")[l]).Some?
  }

  /** `parse_input`: split at blank lines, then at line feeds, and parse. */
  function ParseInput(input: string): (lists: seq<seq<nat>>)
    requires ValidInput(input)
    ensures |lists| == |Split(input, "\n\n")| && |lists| > 0
    ensures forall g :: 0 <= g < |lists| ==>
      |lists[g]| == |Split(Split(input, "\n\n")[g], "\n")|
      && forall l :: 0 <= l < |lists[g]| ==>
        ParseNat(Split(Split(input, "\n\n")[g], "\n")[l]) == Some(lists[g][l])
  {
    var groups := Split(input, "\n\n");
    seq(|groups|, g requires 0 <= g < |groups| => ParseStrings(Split(groups[g], "\n"), ParseNat))
  }

  /** `sub_sum`: the total of every list. */
  function SubSum(items: seq<seq<nat>>): (totals: seq<nat>)
    ensures |totals| == |items|
    ensures forall i :: 0 <= i < |items| ==> totals[i] == Sum(items[i])
  {
    seq(|items|, i requires 0 <= i < |items| => Sum(items[i]))
  }

  /** The totals add up to all the calories there are. */
  lemma {:induction false} SubSumKeepsTotal(items: seq<seq<nat>>)
    ensures Sum(SubSum(items)) == Sum(Flatten(items))
  {
    if |items| > 0 {
      SubSumKeepsTotal(items[1..]);
      assert SubSum(items)[1..] == SubSum(items[1..]);
      SumAppend(items[0], Flatten(items[1..]));
    }
  }

  // ---------------------------------------------------------------------------
  // Sorting descending (`sort_by(|a, b| b.cmp(a))`)
  // ---------------------------------------------------------------------------

  predicate SortedDescending(s: seq<nat>)
  {
    forall i, j :: 0 <= i < j < |s| ==> s[i] >= s[j]
  }

  /** `x` put into a descending sequence in front of the first smaller entry. */
  function InsertDescending(x: nat, s: seq<nat>): (r: seq<nat>)
    requires SortedDescending(s)
    ensures SortedDescending(r)
    ensures multiset(r) == multiset(s) + multiset{x}
    ensures |r| == |s| + 1
  {
    if |s| == 0 || x >= s[0] then [x] + s
    else
      var rest := InsertDescending(x, s[1..]);
      InsertBelowHead(x, s, rest);
      [s[0]] + rest
  }

  /** Putting the head of `s` back in front of `x` inserted into the tail. */
  lemma InsertBelowHead(x: nat, s: seq<nat>, rest: seq<nat>)
    requires SortedDescending(s) && |s| > 0 && x < s[0]
    requires SortedDescending(rest) && multiset(rest) == multiset(s[1..]) + multiset{x}
    ensures SortedDescending([s[0]] + rest)
    ensures multiset([s[0]] + rest) == multiset(s) + multiset{x}
  {
    assert s == [s[0]] + s[1..];
    forall k | 0 <= k < |rest|
      ensures rest[k] <= s[0]
    {
      assert rest[k] in multiset(rest);
      if rest[k] != x {
        assert rest[k] in multiset(s[1..]);
        var m :| 0 <= m < |s[1..]| && s[1..][m] == rest[k];
        assert s[m + 1] == rest[k];
      }
    }
  }

  /** The totals in descending order: a sorted permutation. */
  function SortDescending(xs: seq<nat>): (r: seq<nat>)
    ensures SortedDescending(r)
    ensures multiset(r) == multiset(xs)
    ensures |r| == |xs|
  {
    if |xs| == 0 then []
    else
      assert xs == [xs[0]] + xs[1..];
      InsertDescending(xs[0], SortDescending(xs[1..]))
  }

  /** The first entry of a descending sequence is its largest. */
  lemma {:induction false} SortedFirstIsMax(s: seq<nat>)
    requires SortedDescending(s) && |s| > 0
    ensures forall x :: x in multiset(s) ==> x <= s[0]
  {
    forall x | x in multiset(s)
      ensures x <= s[0]
    {
      assert x in s;
      var k :| 0 <= k < |s| && s[k] == x;
      if k > 0 {
        assert s[0] >= s[k];
      }
    }
  }

  /** The tail of a descending sequence is descending and lacks just the head. */
  lemma DropFirst(s: seq<nat>)
    requires SortedDescending(s) && |s| > 0
    ensures SortedDescending(s[1..])
    ensures multiset(s[1..]) == multiset(s) - multiset{s[0]}
  {
    assert s == [s[0]] + s[1..];
  }

  /** Two descending sequences with the same elements start alike: both
      heads are the largest element. */
  lemma SortedSameHead(s: seq<nat>, t: seq<nat>)
    requires SortedDescending(s) && SortedDescending(t) && |s| > 0 && |t| > 0
    requires multiset(s) == multiset(t)
    ensures s[0] == t[0]
  {
    SortedFirstIsMax(s);
    SortedFirstIsMax(t);
    assert s[0] in multiset(s) && t[0] in multiset(t);
  }

  /** Two descending sequences with the same elements are equal: sorting
      determines the order completely. */
  lemma {:induction false} SortedPermutationUnique(s: seq<nat>, t: seq<nat>)
    requires SortedDescending(s) && SortedDescending(t)
    requires multiset(s) == multiset(t)
    ensures s == t
  {
    assert |s| == |multiset(s)| == |t|;
    if |s| > 0 {
      SortedSameHead(s, t);
      DropFirst(s);
      DropFirst(t);
      SortedPermutationUnique(s[1..], t[1..]);
      assert s == [s[0]] + s[1..] && t == [t[0]] + t[1..];
    }
  }

  /** `s` is `xs` in descending order. */
  predicate IsSortedPermutation(s: seq<nat>, xs: seq<nat>)
  {
    SortedDescending(s) && multiset(s) == multiset(xs)
  }

  // ---------------------------------------------------------------------------
  // The two parts
  // ---------------------------------------------------------------------------

  /** The first line of `part_one` after sorting: the largest total, which
      belongs to some elf. */
  function LargestTotal(totals: seq<nat>): (r: nat)
    requires |totals| > 0
    ensures r in totals
    ensures forall i :: 0 <= i < |totals| ==> totals[i] <= r
  {
    var sorted := SortDescending(totals);
    SortedFirstIsMax(sorted);
    assert sorted[0] in multiset(sorted);
    assert forall i :: 0 <= i < |totals| ==> totals[i] in multiset(totals);
    sorted[0]
  }

  /** Three distinct positions of a descending sequence hold no more than its
      first three entries. */
  lemma TopThreeBound(s: seq<nat>, i: nat, j: nat, k: nat)
    requires SortedDescending(s)
    requires i < |s| && j < |s| && k < |s| && i != j && j != k && i != k
    ensures s[i] + s[j] + s[k] <= s[0] + s[1] + s[2]
  {
    var a := if i < j && i < k then i else if j < k then j else k;
    var c := if i > j && i > k then i else if j > k then j else k;
    var b := i + j + k - a - c;
    assert a < b < c;
    assert s[a] <= s[0] && s[b] <= s[1] && s[c] <= s[2];
    assert s[i] + s[j] + s[k] == s[a] + s[b] + s[c];
  }

  /** The last line of `part_two` after sorting: the sum of the first three
      totals of the descending order. `[0..3]` panics when there are fewer
      than three. */
  function TopThreeTotal(totals: seq<nat>): (r: nat)
    requires |totals| >= 3
    ensures exists s: seq<nat> :: (IsSortedPermutation(s, totals) && |s| >= 3 && r == s[0] + s[1] + s[2])
    ensures LargestTotal(totals) <= r
  {
    var sorted := SortDescending(totals);
    sorted[0] + sorted[1] + sorted[2]
  }

  /** No three elves carry more than part two's answer: the totals of any
      three different elves sum to at most it. */
  lemma TopThreeIsLargest(totals: seq<nat>, i: nat, j: nat, k: nat)
    requires |totals| >= 3
    requires i < |totals| && j < |totals| && k < |totals| && i != j && j != k && i != k
    ensures totals[i] + totals[j] + totals[k] <= TopThreeTotal(totals)
  {
    var sorted := SortDescending(totals);
    TopThreeOfSorted(totals, sorted);
    ThreeElves(totals, sorted, i, j, k);
  }

  /** Three different positions of `t` hold no more than the first three
      entries of its descending order. */
  lemma ThreeElves(t: seq<nat>, sorted: seq<nat>, i: nat, j: nat, k: nat)
    requires IsSortedPermutation(sorted, t)
    requires i < |t| && j < |t| && k < |t| && i != j && j != k && i != k
    ensures |sorted| >= 3 && t[i] + t[j] + t[k] <= sorted[0] + sorted[1] + sorted[2]
  {
    var a := if i < j && i < k then i else if j < k then j else k;
    var c := if i > j && i > k then i else if j > k then j else k;
    var b := i + j + k - a - c;
    assert t[i] + t[j] + t[k] == t[a] + t[b] + t[c];
    PickedIn(t, a, b, c);
    ThreeOfSorted(sorted, t[a], t[b], t[c]);
  }

  /** Three entries of a descending sequence, repetitions counted, sum to
      at most its first three. */
  lemma ThreeOfSorted(s: seq<nat>, x: nat, y: nat, z: nat)
    requires SortedDescending(s) && multiset([x, y, z]) <= multiset(s)
    ensures |s| >= 3 && x + y + z <= s[0] + s[1] + s[2]
  {
    TopBound(s, [x, y, z]);
    SumThree([x, y, z]);
    SumThree(s[..3]);
  }

  lemma SumThree(s: seq<nat>)
    requires |s| == 3
    ensures Sum(s) == s[0] + s[1] + s[2]
  {
    var last := s[1..][1..];
    assert last == [s[2]] && last[1..] == [];
    assert Sum(last) == s[2];
  }

  /** The entries at three positions are among the entries of `t`. */
  lemma PickedIn(t: seq<nat>, a: nat, b: nat, c: nat)
    requires a < b < c < |t|
    ensures multiset([t[a], t[b], t[c]]) <= multiset(t)
  {
    assert t == t[..a] + [t[a]] + t[a + 1..b] + [t[b]] + t[b + 1..c] + [t[c]] + t[c + 1..];
  }

  /** Any `n` of the entries of a descending sequence, repetitions counted,
      sum to at most its first `n` entries. */
  lemma {:induction false} TopBound(s: seq<nat>, m: seq<nat>)
    requires SortedDescending(s) && multiset(m) <= multiset(s)
    ensures |m| <= |s| && Sum(m) <= Sum(s[..|m|])
    decreases |s|
  {
    if |m| == 0 {
      return;
    }
    assert m[0] in multiset(s);
    assert SortedDescending(s[1..]);
    if s[0] in multiset(m) {
      var p := PickHead(s, m);
      TopBound(s[1..], m[..p] + m[p + 1..]);
      TakeHead(s, m, p);
    } else {
      LeaveHead(s, m);
      TopBound(s[1..], m);
      SkipHead(s, m);
    }
  }

  /** A picked first entry: the rest of the picks come from the rest. */
  lemma PickHead(s: seq<nat>, m: seq<nat>) returns (p: nat)
    requires |s| > 0 && s[0] in multiset(m) && multiset(m) <= multiset(s)
    ensures p < |m| && m[p] == s[0]
    ensures multiset(m[..p] + m[p + 1..]) <= multiset(s[1..])
    ensures |m[..p] + m[p + 1..]| == |m| - 1
  {
    p :| 0 <= p < |m| && m[p] == s[0];
    var rest := m[..p] + m[p + 1..];
    assert m == m[..p] + [m[p]] + m[p + 1..];
    assert multiset(m) == multiset(rest) + multiset{s[0]};
    assert s == [s[0]] + s[1..];
    assert multiset(s) == multiset(s[1..]) + multiset{s[0]};
    MultisetCancel(multiset(rest), multiset(s[1..]), s[0]);
  }

  /** Taking the same element from both sides keeps the inclusion. */
  lemma MultisetCancel(a: multiset<nat>, b: multiset<nat>, x: nat)
    requires a + multiset{x} <= b + multiset{x}
    ensures a <= b
  {
    forall y | y in a
      ensures a[y] <= b[y]
    {
      assert (a + multiset{x})[y] == a[y] + multiset{x}[y];
    }
  }

  /** An unpicked first entry: all picks come from the rest. */
  lemma LeaveHead(s: seq<nat>, m: seq<nat>)
    requires |s| > 0 && s[0] !in multiset(m) && multiset(m) <= multiset(s)
    ensures multiset(m) <= multiset(s[1..])
  {
    assert s == [s[0]] + s[1..];
  }

  /** The step of `TopBound` when the first entry is picked. */
  lemma TakeHead(s: seq<nat>, m: seq<nat>, p: nat)
    requires p < |m| <= |s| && m[p] == s[0]
    requires Sum(m[..p] + m[p + 1..]) <= Sum(s[1..][..|m| - 1])
    ensures Sum(m) <= Sum(s[..|m|])
  {
    SumRemove(m, p);
    PrefixCons(s, |m|);
  }

  /** The step of `TopBound` when the first entry is not picked. */
  lemma SkipHead(s: seq<nat>, m: seq<nat>)
    requires SortedDescending(s) && |m| < |s|
    requires Sum(m) <= Sum(s[1..][..|m|])
    ensures Sum(m) <= Sum(s[..|m|])
  {
    assert s[1..][..|m|] == s[1..|m| + 1];
    SlideBound(s, |m|);
  }

  /** The first `n` entries sum to the first one plus the next `n - 1`. */
  lemma PrefixCons(s: seq<nat>, n: nat)
    requires 0 < n <= |s|
    ensures Sum(s[..n]) == s[0] + Sum(s[1..][..n - 1])
  {
    assert s[..n][1..] == s[1..][..n - 1];
  }

  /** Taking out one entry takes its value out of the sum. */
  lemma SumRemove(m: seq<nat>, p: nat)
    requires p < |m|
    ensures Sum(m) == m[p] + Sum(m[..p] + m[p + 1..])
  {
    var before, after := m[..p], m[p + 1..];
    var tail := [m[p]] + after;
    assert m == before + tail;
    assert tail[1..] == after;
    assert Sum(tail) == m[p] + Sum(after);
    SumAppend(before, tail);
    SumAppend(before, after);
  }

  /** In a descending sequence the `n` entries after the first sum to at most
      the first `n`. */
  lemma SlideBound(s: seq<nat>, n: nat)
    requires SortedDescending(s) && n < |s|
    ensures Sum(s[1..n + 1]) <= Sum(s[..n])
  {
    if n > 0 {
      assert s[..n + 1] == [s[0]] + s[1..n + 1];
      assert s[..n + 1] == s[..n] + [s[n]];
      SumAppend(s[..n], [s[n]]);
    }
  }

  /** Any descending arrangement of the totals gives part two's answer. */
  lemma TopThreeOfSorted(totals: seq<nat>, sorted: seq<nat>)
    requires |totals| >= 3 && IsSortedPermutation(sorted, totals)
    ensures |sorted| >= 3 && TopThreeTotal(totals) == sorted[0] + sorted[1] + sorted[2]
  {
    assert |sorted| == |multiset(totals)| == |totals|;
    var r := TopThreeTotal(totals);
    var s: seq<nat> :| IsSortedPermutation(s, totals) && |s| >= 3 && r == s[0] + s[1] + s[2];
    SortedPermutationUnique(s, sorted);
  }

  /** `part_one`: the largest total of the input. */
  function PartOne(input: string): (r: nat)
    requires ValidInput(input)
    ensures r in SubSum(ParseInput(input))
    ensures forall i :: 0 <= i < |ParseInput(input)| ==> Sum(ParseInput(input)[i]) <= r
  {
    LargestTotal(SubSum(ParseInput(input)))
  }

  /** `part_two`: the sum of the three largest totals of the input. */
  function PartTwo(input: string): (r: nat)
    requires ValidInput(input) && |Split(input, "\n\n")| >= 3
    ensures exists s: seq<nat> ::
      (IsSortedPermutation(s, SubSum(ParseInput(input))) && |s| >= 3 && r == s[0] + s[1] + s[2])
    ensures PartOne(input) <= r
  {
    TopThreeTotal(SubSum(ParseInput(input)))
  }

  /** The example of the tests, once parsed: the totals are 6000, 4000,
      11000, 24000 and 10000. */
  lemma ExampleTotals()
    ensures SubSum([[1000, 2000, 3000], [4000], [5000, 6000], [7000, 8000, 9000], [10000]])
         == [6000, 4000, 11000, 24000, 10000]
  {
    assert Sum([3000]) == 3000;
    assert Sum([2000, 3000]) == 5000;
    assert Sum([8000, 9000]) == 17000;
    assert Sum([6000]) == 6000;
    assert Sum([9000]) == 9000;
  }

  /** On those totals part one gives 24000 and part two 45000. */
  lemma ExampleLargest(totals: seq<nat>)
    requires totals == [6000, 4000, 11000, 24000, 10000]
    ensures LargestTotal(totals) == 24000
  {
    var r := LargestTotal(totals);
    assert totals[3] == 24000;
    assert r in totals;
  }

  /** Whatever the order of those totals, part two gives 45000. */
  lemma ExampleTopThree(totals: seq<nat>, sorted: seq<nat>)
    requires multiset(totals) == multiset{6000, 4000, 11000, 24000, 10000}
    requires sorted == [24000, 11000, 10000, 6000, 4000]
    ensures |totals| == 5 && TopThreeTotal(totals) == 45000
  {
    assert multiset(sorted) == multiset{24000, 11000, 10000, 6000, 4000};
    assert |totals| == |multiset(totals)| == 5;
    TopThreeOfSorted(totals, sorted);
  }
}
