/** Day 3 (`src/days/day03/mod.rs`): rucksack priorities. The items of a
    group of rucksacks (or of the two compartments of one rucksack) are
    intersected, the smallest common item is taken and its priority, its
    position in `ALPHABET` plus one, is added up. */
module Day03 {
  import opened Utils

  /** `ALPHABET`: `a` to `z` followed by `A` to `Z`. */
  function Letters(first: char): (r: string)
    requires first == 'a' || first == 'A'
    ensures |r| == 26 && forall i :: 0 <= i < 26 ==> r[i] == ((first as int) + i) as char
  {
    seq(26, i requires 0 <= i < 26 => ((first as int) + i) as char)
  }

  const Alphabet: string := Letters('a') + Letters('A')

  /** The position of the first occurrence of `c` in `s`. */
  function IndexOf(s: string, c: char): (k: nat)
    requires c in s
    ensures k < |s| && s[k] == c
    ensures forall j :: 0 <= j < k ==> s[j] != c
  {
    if s[0] == c then 0 else 1 + IndexOf(s[1..], c)
  }

  /** An ASCII letter; by `AlphabetLetters`, exactly the characters of the alphabet. */
  predicate IsLetter(c: char)
  {
    'a' <= c <= 'z' || 'A' <= c <= 'Z'
  }

  /** `item_to_priority`: `ALPHABET.find(c) + 1`. A character outside the
      alphabet makes `unwrap` panic, hence the precondition. The letters are
      ASCII, so the byte offset `find` returns is the character index. */
  function ItemToPriority(c: char): (p: nat)
    requires IsLetter(c)
    ensures 1 <= p <= 52 && Alphabet[p - 1] == c
    ensures 'a' <= c <= 'z' ==> p == (c as int) - ('a' as int) + 1
    ensures 'A' <= c <= 'Z' ==> p == (c as int) - ('A' as int) + 27
  {
    AlphabetLetters();
    IndexOf(Alphabet, c) + 1
  }

  /** The alphabet holds exactly the ASCII letters, each once. */
  lemma AlphabetLetters()
    ensures |Alphabet| == 52
    ensures forall i :: 0 <= i < 26 ==> Alphabet[i] == (('a' as int) + i) as char
    ensures forall i :: 26 <= i < 52 ==> Alphabet[i] == (('A' as int) + i - 26) as char
    ensures forall c :: c in Alphabet <==> IsLetter(c)
  {
    forall c | IsLetter(c)
      ensures c in Alphabet
    {
      if 'a' <= c <= 'z' {
        assert Alphabet[(c as int) - ('a' as int)] == c;
      } else {
        assert Alphabet[26 + (c as int) - ('A' as int)] == c;
      }
    }
  }

  /** Priorities from the puzzle statement. */
  lemma PriorityExamples()
    ensures ItemToPriority('p') == 16 && ItemToPriority('L') == 38 && ItemToPriority('P') == 42
    ensures ItemToPriority('v') == 22 && ItemToPriority('t') == 20 && ItemToPriority('s') == 19
  {
  }

  /** `sack.chars().collect::<BTreeSet<char>>()`. */
  function Items(sack: string): (r: set<char>)
    ensures forall c :: c in r <==> c in sack
  {
    set i | 0 <= i < |sack| :: sack[i]
  }

  /** A non-empty finite set of characters has a least element. */
  lemma {:induction false} LeastExists(s: set<char>)
    requires s != {}
    ensures exists m :: m in s && forall x :: x in s ==> m <= x
    decreases |s|
  {
    var y :| y in s;
    if s != {y} {
      LeastExists(s - {y});
      var m :| m in s - {y} && forall x :: x in s - {y} ==> m <= x;
      var least := if y < m then y else m;
      forall x | x in s
        ensures least <= x
      {
        if x != y {
          assert x in s - {y};
        }
      }
    } else {
      assert forall x :: x in s ==> y <= x;
    }
  }

  /** `set.into_iter().next()` on a `BTreeSet`: the least element. */
  function Least(s: set<char>): (m: char)
    requires s != {}
    ensures m in s && forall x :: x in s ==> m <= x
  {
    LeastExists(s);
    var m :| m in s && forall x :: x in s ==> m <= x;
    m
  }

  /** A group the source can score: its common items are not empty and the
      smallest of them is a letter. */
  predicate ScorableGroup(group: seq<set<char>>)
  {
    |group| > 0 && Intersection(group) != {} && IsLetter(Least(Intersection(group)))
  }

  /** The priority one group adds: that of its smallest common item. */
  function GroupPriority(group: seq<set<char>>): (p: nat)
    requires ScorableGroup(group)
    ensures 1 <= p <= 52
    ensures exists c :: c in Intersection(group) && IsLetter(c) && p == ItemToPriority(c)
  {
    ItemToPriority(Least(Intersection(group)))
  }

  /** When the group shares exactly one item, as the puzzle promises, the
      priority is that item's. */
  lemma SingleCommonItem(group: seq<set<char>>, c: char)
    requires |group| > 0 && IsLetter(c)
    requires forall i :: 0 <= i < |group| ==> c in group[i]
    requires forall x :: x in group[0] && x != c ==> exists i :: 0 <= i < |group| && x !in group[i]
    ensures ScorableGroup(group) && GroupPriority(group) == ItemToPriority(c)
  {
    assert Intersection(group) == {c};
  }

  /** The fold of `sum_of_common_items` over groups already cut into chunks. */
  function SumGroups(groups: seq<seq<set<char>>>): (total: nat)
    requires forall i :: 0 <= i < |groups| ==> ScorableGroup(groups[i])
    ensures |groups| <= total <= 52 * |groups|
  {
    if |groups| == 0 then 0
    else
      assert ScorableGroup(groups[0]);
      GroupPriority(groups[0]) + SumGroups(groups[1..])
  }

  /** The fold adds up group by group. */
  lemma {:induction false} SumGroupsAppend(a: seq<seq<set<char>>>, b: seq<seq<set<char>>>)
    requires forall i :: 0 <= i < |a| ==> ScorableGroup(a[i])
    requires forall i :: 0 <= i < |b| ==> ScorableGroup(b[i])
    ensures forall i :: 0 <= i < |a + b| ==> ScorableGroup((a + b)[i])
    ensures SumGroups(a + b) == SumGroups(a) + SumGroups(b)
  {
    assert forall i :: 0 <= i < |a + b| ==> ScorableGroup((a + b)[i]) by {
      forall i | 0 <= i < |a + b|
        ensures ScorableGroup((a + b)[i])
      {
        if i < |a| {
          assert (a + b)[i] == a[i];
        } else {
          assert (a + b)[i] == b[i - |a|];
        }
      }
    }
    if |a| == 0 {
      assert a + b == b;
    } else {
      assert (a + b)[1..] == a[1..] + b;
      SumGroupsAppend(a[1..], b);
    }
  }

  /** Every chunk of the sacks can be scored. */
  predicate ScorableChunks(sacks: seq<set<char>>, chunkSize: nat)
    requires chunkSize > 0
  {
    forall i :: 0 <= i < |Chunks(sacks, chunkSize)| ==> ScorableGroup(Chunks(sacks, chunkSize)[i])
  }

  /** `sum_of_common_items`: the sacks cut into groups of `chunk_size` (the
      last group possibly smaller), each adding the priority of its smallest
      common item. */
  function SumOfCommonItems(sacks: seq<set<char>>, chunkSize: nat): (total: nat)
    requires chunkSize > 0 && ScorableChunks(sacks, chunkSize)
    ensures |Chunks(sacks, chunkSize)| <= total <= 52 * |Chunks(sacks, chunkSize)|
  {
    SumGroups(Chunks(sacks, chunkSize))
  }

  /** The two compartments of a rucksack: `split_at(len / 2)`, as sets. */
  function Compartments(sack: string): (r: seq<set<char>>)
    ensures |r| == 2
    ensures forall c :: c in r[0] <==> c in sack[..|sack| / 2]
    ensures forall c :: c in r[1] <==> c in sack[|sack| / 2..]
  {
    [Items(sack[..|sack| / 2]), Items(sack[|sack| / 2..])]
  }

  /** The `flat_map` of `part_one`: both compartments of every rucksack, in order. */
  function AllCompartments(sacks: seq<string>): (r: seq<set<char>>)
    ensures |r| == 2 * |sacks|
    ensures forall i :: 0 <= i < |sacks| ==>
              r[2 * i] == Compartments(sacks[i])[0] && r[2 * i + 1] == Compartments(sacks[i])[1]
  {
    var pairs := seq(|sacks|, i requires 0 <= i < |sacks| => Compartments(sacks[i]));
    FlattenPairs(pairs);
    Flatten(pairs)
  }

  /** Cutting the flattened compartments into chunks of two gives back the
      two compartments of each rucksack: part one scores every rucksack on
      its own. */
  lemma PartOneGroups(sacks: seq<string>)
    ensures Chunks(AllCompartments(sacks), 2)
         == seq(|sacks|, i requires 0 <= i < |sacks| => Compartments(sacks[i]))
  {
    ChunksFlatten(seq(|sacks|, i requires 0 <= i < |sacks| => Compartments(sacks[i])), 2);
  }

  /** `part_one`. */
  function PartOne(input: string): (total: nat)
    requires ScorableChunks(AllCompartments(Lines(input)), 2)
    ensures |Lines(input)| <= total <= 52 * |Lines(input)|
  {
    PartOneGroups(Lines(input));
    SumOfCommonItems(AllCompartments(Lines(input)), 2)
  }

  /** The rucksacks of the input as item sets. */
  function Sacks(input: string): (r: seq<set<char>>)
    ensures |r| == |Lines(input)|
    ensures forall i :: 0 <= i < |r| ==> r[i] == Items(Lines(input)[i])
  {
    seq(|Lines(input)|, i requires 0 <= i < |Lines(input)| => Items(Lines(input)[i]))
  }

  /** `part_two`: groups of three consecutive rucksacks. */
  function PartTwo(input: string): (total: nat)
    requires ScorableChunks(Sacks(input), 3)
    ensures total <= 52 * |Chunks(Sacks(input), 3)|
    ensures |Lines(input)| > 0 ==> total > 0
  {
    FlattenChunks(Sacks(input), 3);
    SumOfCommonItems(Sacks(input), 3)
  }
}
