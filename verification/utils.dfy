/** Helpers shared by the puzzle days: the two functions of `src/utils.rs`
    (`intersection`, `parse_strings`) and the small pieces of Rust's string
    library the days rely on (`str::split`, `str::split_once`, decimal
    `str::parse`, `Iterator::sum`), stated at the level of character
    sequences. */
module Utils {
  import opened Wrappers

  // ---------------------------------------------------------------------------
  // Sums
  // ---------------------------------------------------------------------------

  /** `Iterator::sum` over a sequence of naturals. */
  function Sum(xs: seq<nat>): nat
  {
    if |xs| == 0 then 0 else xs[0] + Sum(xs[1..])
  }

  lemma {:induction false} SumAppend(a: seq<nat>, b: seq<nat>)
    ensures Sum(a + b) == Sum(a) + Sum(b)
  {
    if |a| == 0 {
      assert a + b == b;
    } else {
      assert (a + b)[1..] == a[1..] + b;
      SumAppend(a[1..], b);
    }
  }

  /** Every element of a sequence is at most its sum. */
  lemma {:induction false} SumBoundsElements(xs: seq<nat>)
    ensures forall i :: 0 <= i < |xs| ==> xs[i] <= Sum(xs)
  {
    if |xs| > 0 {
      SumBoundsElements(xs[1..]);
      assert forall i :: 1 <= i < |xs| ==> xs[i] == xs[1..][i - 1];
    }
  }

  // ---------------------------------------------------------------------------
  // Reversal
  // ---------------------------------------------------------------------------

  /** The elements of a sequence in the opposite order (`Iterator::rev`). */
  function Reverse<T>(s: seq<T>): (r: seq<T>)
    ensures |r| == |s|
  {
    seq(|s|, i requires 0 <= i < |s| => s[|s| - 1 - i])
  }

  /** Reversing puts the first element last. */
  lemma ReverseOfCons<T>(s: seq<T>)
    requires |s| > 0
    ensures Reverse(s) == Reverse(s[1..]) + [s[0]]
  {
  }

  /** The largest element, or 0 for the empty sequence: a running maximum
      that starts at 0. */
  function MaxOf(s: seq<nat>): (m: nat)
    ensures forall i :: 0 <= i < |s| ==> s[i] <= m
    ensures m == 0 || exists i :: 0 <= i < |s| && s[i] == m
  {
    if |s| == 0 then 0
    else
      var rest := MaxOf(s[1..]);
      assert forall i :: 1 <= i < |s| ==> s[i] == s[1..][i - 1];
      if s[0] > rest then s[0] else rest
  }

  /** An element at least as large as every other is the maximum. */
  lemma MaxOfIs(s: seq<nat>, m: nat, k: nat)
    requires k < |s| && s[k] == m
    requires forall i :: 0 <= i < |s| ==> s[i] <= m
    ensures MaxOf(s) == m
  {
    assert s[k] <= MaxOf(s);
  }

  // ---------------------------------------------------------------------------
  // Decimal numbers (`str::parse::<uN>` on plain digit strings)
  // ---------------------------------------------------------------------------

  predicate IsDigit(c: char)
  {
    '0' <= c <= '9'
  }

  function DigitValue(c: char): nat
    requires IsDigit(c)
  {
    (c as int) - ('0' as int)
  }

  function DigitChar(d: nat): (c: char)
    requires d < 10
    ensures IsDigit(c) && DigitValue(c) == d
  {
    (('0' as int) + d) as char
  }

  /** The value of a string of decimal digits, most significant first. */
  function DigitsValue(s: string): nat
    requires forall i :: 0 <= i < |s| ==> IsDigit(s[i])
  {
    if |s| == 0 then 0 else DigitsValue(s[..|s| - 1]) * 10 + DigitValue(s[|s| - 1])
  }

  /** `s.parse::<usize>()`: succeeds exactly on non-empty strings of decimal digits. */
  function ParseNat(s: string): (r: Option<nat>)
    ensures r.Some? <==> |s| > 0 && forall i :: 0 <= i < |s| ==> IsDigit(s[i])
  {
    if |s| > 0 && forall i :: 0 <= i < |s| ==> IsDigit(s[i]) then Some(DigitsValue(s)) else None
  }

  /** The decimal rendering of a natural number (`to_string`). */
  function ShowNat(n: nat): (s: string)
    ensures |s| > 0 && forall i :: 0 <= i < |s| ==> IsDigit(s[i])
  {
    if n < 10 then [DigitChar(n)] else ShowNat(n / 10) + [DigitChar(n % 10)]
  }

  /** Parsing a rendered number gives the number back. */
  lemma {:induction false} ParseShowNat(n: nat)
    ensures ParseNat(ShowNat(n)) == Some(n)
  {
    DigitsOfShowNat(n);
  }

  lemma {:induction false} DigitsOfShowNat(n: nat)
    ensures DigitsValue(ShowNat(n)) == n
  {
    if n >= 10 {
      var s := ShowNat(n);
      assert s[..|s| - 1] == ShowNat(n / 10);
      DigitsOfShowNat(n / 10);
    }
  }

  // ---------------------------------------------------------------------------
  // Splitting strings (`str::split`, `str::split_once`)
  // ---------------------------------------------------------------------------

  /** `sep` occurs in `s` starting at position `i`. */
  predicate OccursAt(s: string, sep: string, i: nat)
  {
    i + |sep| <= |s| && s[i..i + |sep|] == sep
  }

  /** The first position at or after `from` where `sep` occurs in `s`. */
  function FindFrom(s: string, sep: string, from: nat): (r: Option<nat>)
    requires |sep| > 0
    ensures r.Some? ==> from <= r.value && OccursAt(s, sep, r.value)
    ensures r.Some? ==> forall j :: from <= j < r.value ==> !OccursAt(s, sep, j)
    ensures r.None? ==> forall j :: from <= j ==> !OccursAt(s, sep, j)
    decreases |s| - from
  {
    if from + |sep| > |s| then None
    else if s[from..from + |sep|] == sep then Some(from)
    else FindFrom(s, sep, from + 1)
  }

  /** `str::find` with a string pattern. */
  function Find(s: string, sep: string): Option<nat>
    requires |sep| > 0
  {
    FindFrom(s, sep, 0)
  }

  /** A one-character separator occurs exactly where that character is. */
  lemma OccursAtSingle(s: string, c: char, j: nat)
    ensures OccursAt(s, [c], j) <==> j < |s| && s[j] == c
  {
    if j < |s| && s[j] == c {
      assert s[j..j + 1] == [c];
    }
  }

  /** `find` of a one-character separator is the first position of that character. */
  lemma FindSingle(s: string, c: char, k: nat)
    requires k < |s| && s[k] == c
    requires forall j :: 0 <= j < k ==> s[j] != c
    ensures Find(s, [c]) == Some(k)
  {
    OccursAtSingle(s, c, k);
    var r := Find(s, [c]);
    if r.None? || r.value != k {
      if r.Some? && r.value < k {
        OccursAtSingle(s, c, r.value);
      }
      assert false;
    }
  }

  lemma FindSingleAbsent(s: string, c: char)
    requires forall j :: 0 <= j < |s| ==> s[j] != c
    ensures Find(s, [c]) == None
  {
    var r := Find(s, [c]);
    if r.Some? {
      OccursAtSingle(s, c, r.value);
      assert false;
    }
  }

  /** `s.split(sep)` collected into a vector: the pieces between the
      occurrences of `sep`, found left to right without overlap. */
  function Split(s: string, sep: string): (r: seq<string>)
    requires |sep| > 0
    ensures |r| > 0
    decreases |s|
  {
    match Find(s, sep)
    case None => [s]
    case Some(i) => [s[..i]] + Split(s[i + |sep|..], sep)
  }

  /** `parts.join(sep)`. */
  function Join(parts: seq<string>, sep: string): string
    requires |parts| > 0
  {
    if |parts| == 1 then parts[0] else parts[0] + sep + Join(parts[1..], sep)
  }

  /** Joining the pieces of a split with the separator restores the string. */
  lemma {:induction false} JoinSplit(s: string, sep: string)
    requires |sep| > 0
    ensures Join(Split(s, sep), sep) == s
    decreases |s|
  {
    match Find(s, sep)
    case None =>
    case Some(i) =>
      var rest := s[i + |sep|..];
      var pieces := Split(s, sep);
      assert pieces == [s[..i]] + Split(rest, sep);
      assert |pieces| > 1 && pieces[0] == s[..i] && pieces[1..] == Split(rest, sep);
      JoinSplit(rest, sep);
      assert Join(pieces, sep) == s[..i] + sep + rest;
      assert s[i..i + |sep|] == sep;
      assert s == s[..i] + s[i..i + |sep|] + rest;
  }

  /** No piece of a split contains the separator. */
  lemma {:induction false} SplitPiecesAvoidSeparator(s: string, sep: string)
    requires |sep| > 0
    ensures forall k :: 0 <= k < |Split(s, sep)| ==> Find(Split(s, sep)[k], sep).None?
    decreases |s|
  {
    match Find(s, sep)
    case None =>
    case Some(i) =>
      var rest := s[i + |sep|..];
      SplitPiecesAvoidSeparator(rest, sep);
      var head := s[..i];
      forall j | 0 <= j
        ensures !OccursAt(head, sep, j)
      {
        if OccursAt(head, sep, j) {
          assert head[j..j + |sep|] == s[j..j + |sep|];
          assert OccursAt(s, sep, j);
        }
      }
      assert Split(s, sep) == [head] + Split(rest, sep);
  }

  /** Splitting a join at a one-character separator that no part contains
      gives the parts back. */
  lemma {:induction false} SplitJoin(parts: seq<string>, c: char)
    requires |parts| > 0
    requires forall i :: 0 <= i < |parts| ==> c !in parts[i]
    ensures Split(Join(parts, [c]), [c]) == parts
  {
    if |parts| == 1 {
      FindSingleAbsent(parts[0], c);
    } else {
      var rest := Join(parts[1..], [c]);
      var s := parts[0] + [c] + rest;
      assert Join(parts, [c]) == s;
      assert s[|parts[0]|] == c;
      assert forall j :: 0 <= j < |parts[0]| ==> s[j] == parts[0][j];
      FindSingle(s, c, |parts[0]|);
      assert s[..|parts[0]|] == parts[0];
      assert s[|parts[0]| + 1..] == rest;
      SplitJoin(parts[1..], c);
    }
  }

  /** A line without its carriage return, if it ends in one. */
  function StripCr(line: string): (r: string)
    ensures r == line || (line == r + ['\r'])
  {
    if |line| > 0 && line[|line| - 1] == '\r' then line[..|line| - 1] else line
  }

  /** `str::lines`: the pieces between line feeds, each without a trailing
      carriage return; a line feed at the very end does not start another
      line, so the empty string has no lines. */
  function Lines(s: string): (r: seq<string>)
    ensures forall i :: 0 <= i < |r| ==> '\n' !in r[i]
  {
    var pieces := Split(s, "\n");
    var kept := if pieces[|pieces| - 1] == [] then pieces[..|pieces| - 1] else pieces;
    SplitPiecesAvoidSeparator(s, "\n");
    forall i | 0 <= i < |kept|
      ensures '\n' !in kept[i]
    {
      assert kept[i] == pieces[i];
      if '\n' in kept[i] {
        var j :| 0 <= j < |kept[i]| && kept[i][j] == '\n';
        OccursAtSingle(kept[i], '\n', j);
      }
    }
    seq(|kept|, i requires 0 <= i < |kept| => StripCr(kept[i]))
  }

  /** A line with neither a line feed nor a trailing carriage return. */
  predicate PlainLine(line: string)
  {
    '\n' !in line && (|line| == 0 || line[|line| - 1] != '\r')
  }

  /** Joining plain lines with line feeds and reading the lines back gives
      them again, as long as the last one is not empty. */
  lemma LinesJoin(ls: seq<string>)
    requires |ls| > 0 && ls[|ls| - 1] != []
    requires forall i :: 0 <= i < |ls| ==> PlainLine(ls[i])
    ensures Lines(Join(ls, "\n")) == ls
  {
    SplitJoin(ls, '\n');
    var r := Lines(Join(ls, "\n"));
    assert |r| == |ls|;
    forall i | 0 <= i < |ls|
      ensures r[i] == ls[i]
    {
      assert PlainLine(ls[i]);
      assert StripCr(ls[i]) == ls[i];
    }
  }

  /** `s.split_once(c)`: the parts before and after the first `c`. */
  function SplitOnce(s: string, c: char): (r: Option<(string, string)>)
    ensures r.Some? ==> s == r.value.0 + [c] + r.value.1 && c !in r.value.0
    ensures r.None? <==> c !in s
  {
    if c !in s then None
    else if s[0] == c then Some(([], s[1..]))
    else
      var rest := SplitOnce(s[1..], c).value;
      Some(([s[0]] + rest.0, rest.1))
  }

  /** `s.split_once(sep)` with a string pattern: the parts around the first
      occurrence of `sep`. */
  function SplitOnceAt(s: string, sep: string): (r: Option<(string, string)>)
    requires |sep| > 0
    ensures r.Some? ==> s == r.value.0 + sep + r.value.1 && OccursAt(s, sep, |r.value.0|)
    ensures r.Some? ==> forall j :: 0 <= j < |r.value.0| ==> !OccursAt(s, sep, j)
    ensures r.None? <==> forall j :: 0 <= j ==> !OccursAt(s, sep, j)
  {
    match Find(s, sep)
    case None => None
    case Some(i) =>
      assert s == s[..i] + sep + s[i + |sep|..];
      Some((s[..i], s[i + |sep|..]))
  }

  /** The non-empty strings of `pieces`, in order. */
  function NonEmpty(pieces: seq<string>): (r: seq<string>)
    ensures forall i :: 0 <= i < |r| ==> |r[i]| > 0
    ensures forall i :: 0 <= i < |r| ==> r[i] in pieces
  {
    if |pieces| == 0 then []
    else if |pieces[0]| == 0 then NonEmpty(pieces[1..])
    else [pieces[0]] + NonEmpty(pieces[1..])
  }

  /** `line.split_whitespace()` for lines whose only whitespace is the space:
      the maximal runs of other characters. */
  function Words(line: string): (r: seq<string>)
    ensures forall i :: 0 <= i < |r| ==> |r[i]| > 0
  {
    NonEmpty(Split(line, " "))
  }

  /** Writing words with single spaces between them and splitting at
      whitespace gives the words back. */
  lemma WordsJoin(words: seq<string>)
    requires |words| > 0
    requires forall i :: 0 <= i < |words| ==> |words[i]| > 0 && ' ' !in words[i]
    ensures Words(Join(words, " ")) == words
  {
    SplitJoin(words, ' ');
    NonEmptyKeeps(words);
  }

  lemma {:induction false} NonEmptyKeeps(pieces: seq<string>)
    requires forall i :: 0 <= i < |pieces| ==> |pieces[i]| > 0
    ensures NonEmpty(pieces) == pieces
  {
    if |pieces| > 0 {
      NonEmptyKeeps(pieces[1..]);
    }
  }

  // ---------------------------------------------------------------------------
  // Chunks (`slice::chunks`)
  // ---------------------------------------------------------------------------

  /** The concatenation of a sequence of sequences. */
  function Flatten<T>(xss: seq<seq<T>>): seq<T>
  {
    if |xss| == 0 then [] else xss[0] + Flatten(xss[1..])
  }

  /** Flattening pairs puts the two halves of pair `i` at `2 * i` and
      `2 * i + 1`. */
  lemma {:induction false} FlattenPairs<T>(xss: seq<seq<T>>)
    requires forall i :: 0 <= i < |xss| ==> |xss[i]| == 2
    ensures |Flatten(xss)| == 2 * |xss|
    ensures forall i :: 0 <= i < |xss| ==>
              Flatten(xss)[2 * i] == xss[i][0] && Flatten(xss)[2 * i + 1] == xss[i][1]
  {
    if |xss| > 0 {
      var rest := Flatten(xss[1..]);
      FlattenPairs(xss[1..]);
      assert Flatten(xss) == xss[0] + rest;
      forall i | 0 <= i < |xss|
        ensures Flatten(xss)[2 * i] == xss[i][0] && Flatten(xss)[2 * i + 1] == xss[i][1]
      {
        if i > 0 {
          assert xss[1..][i - 1] == xss[i];
          assert rest[2 * (i - 1)] == xss[i][0] && rest[2 * (i - 1) + 1] == xss[i][1];
        }
      }
    }
  }

  /** `xs.chunks(n)`: consecutive pieces of length `n`, the last one possibly
      shorter but never empty. `chunks(0)` panics, hence `n > 0`. */
  function Chunks<T>(xs: seq<T>, n: nat): (r: seq<seq<T>>)
    requires n > 0
    ensures forall i :: 0 <= i < |r| ==> 0 < |r[i]| <= n
    ensures forall i :: 0 <= i < |r| - 1 ==> |r[i]| == n
    decreases |xs|
  {
    if |xs| == 0 then []
    else if |xs| <= n then [xs]
    else [xs[..n]] + Chunks(xs[n..], n)
  }

  /** The chunks put back together are the sequence. */
  lemma {:induction false} FlattenChunks<T>(xs: seq<T>, n: nat)
    requires n > 0
    ensures Flatten(Chunks(xs, n)) == xs
    decreases |xs|
  {
    if |xs| > n {
      FlattenChunks(xs[n..], n);
      assert Chunks(xs, n)[1..] == Chunks(xs[n..], n);
    }
  }

  /** Cutting the concatenation of pieces of length `n` into chunks of `n`
      gives the pieces back. */
  lemma {:induction false} ChunksFlatten<T>(xss: seq<seq<T>>, n: nat)
    requires n > 0
    requires forall i :: 0 <= i < |xss| ==> |xss[i]| == n
    ensures Chunks(Flatten(xss), n) == xss
  {
    if |xss| > 0 {
      var rest := Flatten(xss[1..]);
      assert Flatten(xss) == xss[0] + rest;
      ChunksFlatten(xss[1..], n);
      if |xss| == 1 {
        assert rest == [];
        assert xss[0] + rest == xss[0];
      } else {
        assert |rest| > 0 by {
          assert rest == xss[1] + Flatten(xss[2..]);
        }
        assert (xss[0] + rest)[..n] == xss[0];
        assert (xss[0] + rest)[n..] == rest;
      }
    }
  }

  // ---------------------------------------------------------------------------
  // src/utils.rs
  // ---------------------------------------------------------------------------

  /** `parse_strings`: every item parsed, in order; an item that does not parse
      makes the source panic, so every item is required to parse. */
  function ParseStrings<T>(items: seq<string>, parse: string -> Option<T>): (r: seq<T>)
    requires forall i :: 0 <= i < |items| ==> parse(items[i]).Some?
    ensures |r| == |items|
    ensures forall i :: 0 <= i < |items| ==> parse(items[i]) == Some(r[i])
  {
    if |items| == 0 then [] else [parse(items[0]).value] + ParseStrings(items[1..], parse)
  }

  /** `intersection`: folds `&` over the sets, starting from the first one.
      An empty sequence makes the source panic, hence the precondition. */
  function Intersection<T(!new)>(sets: seq<set<T>>): (r: set<T>)
    requires |sets| > 0
    ensures forall x :: x in r <==> forall i :: 0 <= i < |sets| ==> x in sets[i]
    ensures r <= sets[0]
  {
    if |sets| == 1 then sets[0]
    else Intersection(sets[..|sets| - 1]) * sets[|sets| - 1]
  }
}
