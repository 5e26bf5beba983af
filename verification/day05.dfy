/** Day 5 (`src/days/day05/mod.rs`): stacks of crates rearranged by a crane.
    The input is a drawing of the stacks, a blank line, and one step
    `move <quantity> from <from> to <to>` per line (stacks numbered from 1).
    The answer is the top crate of every stack after all steps. In part one
    the crane lifts the crates one by one, so they land in reverse order; in
    part two it moves them all at once and their order is kept. */
module Day05 {
  import opened Wrappers
  import opened Utils

  /** A stack lists its crates from the bottom up: the last one is on top. */
  type Stack = seq<char>

  /** `MoveStep`: `from` and `to` start at 1. */
  datatype MoveStep = MoveStep(quantity: nat, from: nat, to: nat)

  lemma {:induction false} ReverseKeepsCrates<T>(s: seq<T>)
    ensures multiset(Reverse(s)) == multiset(s)
  {
    if |s| > 0 {
      ReverseKeepsCrates(s[1..]);
      ReverseOfCons(s);
      assert s == [s[0]] + s[1..];
    }
  }

  /** `lift_crates`: removes the top `quantity` crates and returns them
      bottom-most first. `len - quantity` underflows, and so panics, when the
      stack holds fewer crates. */
  function LiftCrates(stack: Stack, quantity: nat): (r: (Stack, seq<char>))
    requires quantity <= |stack|
    ensures r.0 + r.1 == stack && |r.1| == quantity
  {
    assert stack == stack[..|stack| - quantity] + stack[|stack| - quantity..];
    (stack[..|stack| - quantity], stack[|stack| - quantity..])
  }

  /** A step the source can carry out: both stack numbers exist (`from - 1`
      underflows on 0, and indexing panics past the end) and the source stack
      holds enough crates. */
  predicate ValidStep(stacks: seq<Stack>, step: MoveStep)
  {
    1 <= step.from <= |stacks| && 1 <= step.to <= |stacks| && step.quantity <= |stacks[step.from - 1]|
  }

  /** One step of the loop of `part_one` (`keepOrder` false: the lifted
      crates are put down reversed) or of `part_two` (`keepOrder` true). The
      crates are first removed, then added, so a step onto its own stack sees
      the stack without them. */
  function ApplyStep(stacks: seq<Stack>, step: MoveStep, keepOrder: bool): (r: seq<Stack>)
    requires ValidStep(stacks, step)
    ensures |r| == |stacks|
    ensures forall i :: 0 <= i < |stacks| && i != step.from - 1 && i != step.to - 1 ==> r[i] == stacks[i]
    ensures step.from != step.to ==>
      r[step.from - 1] == stacks[step.from - 1][..|stacks[step.from - 1]| - step.quantity]
    ensures step.from != step.to ==>
      r[step.to - 1] == stacks[step.to - 1] + Unloaded(stacks[step.from - 1][|stacks[step.from - 1]| - step.quantity..], keepOrder)
  {
    var lift := LiftCrates(stacks[step.from - 1], step.quantity);
    PutCrates(stacks[step.from - 1 := lift.0], step.to - 1, Unloaded(lift.1, keepOrder))
  }

  /** The order in which lifted crates land: reversed by the crane of part
      one, kept by that of part two. */
  function Unloaded(lifted: seq<char>, keepOrder: bool): seq<char>
  {
    if keepOrder then lifted else Reverse(lifted)
  }

  /** `crates[i].extend(moved)`. */
  function PutCrates(stacks: seq<Stack>, i: nat, moved: seq<char>): (r: seq<Stack>)
    requires i < |stacks|
    ensures |r| == |stacks| && r[i] == stacks[i] + moved
    ensures forall j :: 0 <= j < |stacks| && j != i ==> r[j] == stacks[j]
  {
    stacks[i := stacks[i] + moved]
  }

  /** All the crates there are, stack by stack. */
  function AllCrates(stacks: seq<Stack>): multiset<char>
  {
    multiset(Flatten(stacks))
  }

  /** Replacing one stack changes the crates by exactly that stack's. */
  lemma {:induction false} AllCratesUpdate(stacks: seq<Stack>, i: nat, s: Stack)
    requires i < |stacks|
    ensures AllCrates(stacks[i := s]) + multiset(stacks[i]) == AllCrates(stacks) + multiset(s)
  {
    var updated := stacks[i := s];
    assert Flatten(stacks) == stacks[0] + Flatten(stacks[1..]);
    assert Flatten(updated) == updated[0] + Flatten(updated[1..]);
    assert AllCrates(stacks) == multiset(stacks[0]) + AllCrates(stacks[1..]);
    assert AllCrates(updated) == multiset(updated[0]) + AllCrates(updated[1..]);
    if i == 0 {
      assert updated[1..] == stacks[1..];
    } else {
      var tail := stacks[1..];
      AllCratesUpdate(tail, i - 1, s);
      assert updated[1..] == tail[i - 1 := s];
      assert updated[0] == stacks[0] && tail[i - 1] == stacks[i];
      calc {
        AllCrates(updated) + multiset(stacks[i]);
        multiset(stacks[0]) + (AllCrates(tail[i - 1 := s]) + multiset(tail[i - 1]));
        multiset(stacks[0]) + (AllCrates(tail) + multiset(s));
        AllCrates(stacks) + multiset(s);
      }
    }
  }

  /** Taking crates off the top of a stack removes just those crates. */
  lemma TakeKeepsCrates(stacks: seq<Stack>, i: nat, rest: Stack, lifted: seq<char>)
    requires i < |stacks| && stacks[i] == rest + lifted
    ensures AllCrates(stacks[i := rest]) + multiset(lifted) == AllCrates(stacks)
  {
    assert multiset(stacks[i]) == multiset(lifted) + multiset(rest);
    AllCratesUpdate(stacks, i, rest);
    MultisetCancel(AllCrates(stacks[i := rest]) + multiset(lifted), AllCrates(stacks), multiset(rest));
  }

  /** Putting crates on top of a stack adds just those crates. */
  lemma PutKeepsCrates(stacks: seq<Stack>, i: nat, moved: seq<char>)
    requires i < |stacks|
    ensures AllCrates(PutCrates(stacks, i, moved)) == AllCrates(stacks) + multiset(moved)
  {
    assert multiset(stacks[i] + moved) == multiset(moved) + multiset(stacks[i]);
    AllCratesUpdate(stacks, i, stacks[i] + moved);
    MultisetCancel(AllCrates(PutCrates(stacks, i, moved)), AllCrates(stacks) + multiset(moved), multiset(stacks[i]));
  }

  /** A step neither creates nor destroys crates. */
  lemma ApplyStepKeepsCrates(stacks: seq<Stack>, step: MoveStep, keepOrder: bool)
    requires ValidStep(stacks, step)
    ensures AllCrates(ApplyStep(stacks, step, keepOrder)) == AllCrates(stacks)
  {
    var lift := LiftCrates(stacks[step.from - 1], step.quantity);
    var afterLift := stacks[step.from - 1 := lift.0];
    var moved := Unloaded(lift.1, keepOrder);
    ReverseKeepsCrates(lift.1);
    assert multiset(moved) == multiset(lift.1);
    TakeKeepsCrates(stacks, step.from - 1, lift.0, lift.1);
    PutKeepsCrates(afterLift, step.to - 1, moved);
    var r := PutCrates(afterLift, step.to - 1, moved);
    assert AllCrates(r) == AllCrates(stacks);
    assert ApplyStep(stacks, step, keepOrder) == r;
  }

  lemma MultisetCancel<T>(a: multiset<T>, b: multiset<T>, t: multiset<T>)
    requires a + t == b + t
    ensures a == b
  {
    forall x
      ensures a[x] == b[x]
    {
      assert (a + t)[x] == (b + t)[x];
    }
  }

  /** The loop over the steps. `None` stands for the panic of the first step
      the source cannot carry out. */
  function Run(stacks: seq<Stack>, steps: seq<MoveStep>, keepOrder: bool): (r: Option<seq<Stack>>)
    ensures r.Some? ==> |r.value| == |stacks| && AllCrates(r.value) == AllCrates(stacks)
    decreases |steps|
  {
    if |steps| == 0 then Some(stacks)
    else if !ValidStep(stacks, steps[0]) then None
    else
      ApplyStepKeepsCrates(stacks, steps[0], keepOrder);
      Run(ApplyStep(stacks, steps[0], keepOrder), steps[1..], keepOrder)
  }

  /** Running two lists of steps is running the first, then the second. */
  lemma {:induction false} RunAppend(stacks: seq<Stack>, a: seq<MoveStep>, b: seq<MoveStep>, keepOrder: bool)
    ensures Run(stacks, a + b, keepOrder) ==
      (match Run(stacks, a, keepOrder)
       case None => None
       case Some(mid) => Run(mid, b, keepOrder))
    decreases |a|
  {
    if |a| > 0 {
      assert (a + b)[0] == a[0] && (a + b)[1..] == a[1..] + b;
      if ValidStep(stacks, a[0]) {
        RunAppend(ApplyStep(stacks, a[0], keepOrder), a[1..], b, keepOrder);
      }
    } else {
      assert a + b == b;
    }
  }

  /** The crane of part one, moving `n` crates one at a time. */
  function MoveOneByOne(stacks: seq<Stack>, from: nat, to: nat, n: nat): seq<Stack>
    requires ValidStep(stacks, MoveStep(n, from, to)) && from != to
    decreases n
  {
    if n == 0 then stacks
    else MoveOneByOne(ApplyStep(stacks, MoveStep(1, from, to), true), from, to, n - 1)
  }

  /** Lifting `n` crates is lifting `n - 1` from under the top one, then the top one. */
  lemma LiftTopLast(f: Stack, n: nat)
    requires 0 < n <= |f|
    ensures f[|f| - n..] == f[..|f| - 1][|f| - n..] + [f[|f| - 1]]
    ensures f[..|f| - 1][..|f| - n] == f[..|f| - n]
  {
  }

  lemma ReverseOfSnoc<T>(s: seq<T>, c: T)
    ensures Reverse(s + [c]) == [c] + Reverse(s)
  {
  }

  /** The comment of `part_one`: lifting crates one by one puts them down in
      reverse order. Between two different stacks a step of part one is that
      many single-crate moves. */
  lemma {:induction false} PartOneMovesOneByOne(stacks: seq<Stack>, from: nat, to: nat, n: nat)
    requires ValidStep(stacks, MoveStep(n, from, to)) && from != to
    ensures MoveOneByOne(stacks, from, to, n) == ApplyStep(stacks, MoveStep(n, from, to), false)
    decreases n
  {
    if n == 0 {
      var f := stacks[from - 1];
      assert f[|f|..] == [] && f[..|f|] == f;
      StepResult(stacks, MoveStep(0, from, to), false, stacks);
    } else {
      var s1 := ApplyStep(stacks, MoveStep(1, from, to), true);
      PartOneMovesOneByOne(s1, from, to, n - 1);
      TopCrateThenRest(stacks, from, to, n);
    }
  }

  /** Moving the top crate, then reversing `n - 1` more onto it, is reversing
      all `n` at once. */
  lemma TopCrateThenRest(stacks: seq<Stack>, from: nat, to: nat, n: nat)
    requires ValidStep(stacks, MoveStep(n, from, to)) && from != to && n > 0
    ensures ValidStep(ApplyStep(stacks, MoveStep(1, from, to), true), MoveStep(n - 1, from, to))
    ensures ApplyStep(ApplyStep(stacks, MoveStep(1, from, to), true), MoveStep(n - 1, from, to), false)
         == ApplyStep(stacks, MoveStep(n, from, to), false)
  {
    var s2 := TopCrateThenRestStacks(stacks, from, to, n);
    var r := ApplyStep(stacks, MoveStep(n, from, to), false);
    SameStacks(s2, r, stacks, from - 1, to - 1);
  }

  /** Two results of steps between stacks `x` and `y` are equal when they
      agree on those two stacks. */
  lemma SameStacks(a: seq<Stack>, b: seq<Stack>, stacks: seq<Stack>, x: nat, y: nat)
    requires |a| == |stacks| && |b| == |stacks| && x < |stacks| && y < |stacks|
    requires forall i :: 0 <= i < |stacks| && i != x && i != y ==> a[i] == stacks[i]
    requires forall i :: 0 <= i < |stacks| && i != x && i != y ==> b[i] == stacks[i]
    requires a[x] == b[x] && a[y] == b[y]
    ensures a == b
  {
  }

  /** The stacks after the top crate and then `n - 1` more have moved. */
  lemma TopCrateThenRestStacks(stacks: seq<Stack>, from: nat, to: nat, n: nat) returns (s2: seq<Stack>)
    requires ValidStep(stacks, MoveStep(n, from, to)) && from != to && n > 0
    ensures ValidStep(ApplyStep(stacks, MoveStep(1, from, to), true), MoveStep(n - 1, from, to))
    ensures s2 == ApplyStep(ApplyStep(stacks, MoveStep(1, from, to), true), MoveStep(n - 1, from, to), false)
    ensures |s2| == |stacks|
    ensures forall i :: 0 <= i < |stacks| && i != from - 1 && i != to - 1 ==> s2[i] == stacks[i]
    ensures s2[from - 1] == stacks[from - 1][..|stacks[from - 1]| - n]
    ensures s2[to - 1] == stacks[to - 1] + Reverse(stacks[from - 1][|stacks[from - 1]| - n..])
  {
    var f := stacks[from - 1];
    var t := stacks[to - 1];
    var top := f[|f| - 1];
    var s1 := ApplyStep(stacks, MoveStep(1, from, to), true);
    assert f[|f| - 1..] == [top];
    assert s1[from - 1] == f[..|f| - 1] && s1[to - 1] == t + [top];
    s2 := ApplyStep(s1, MoveStep(n - 1, from, to), false);
    var f1 := f[..|f| - 1];
    assert s2[to - 1] == (t + [top]) + Reverse(f1[|f1| - (n - 1)..]);
    LandReversed(t, f, n);
  }

  /** Putting down the top crate, then the `n - 1` under it reversed, lands
      the same crates as putting down all `n` reversed. */
  lemma LandReversed(t: seq<char>, f: seq<char>, n: nat)
    requires 0 < n <= |f|
    ensures f[..|f| - 1][..|f| - 1 - (n - 1)] == f[..|f| - n]
    ensures (t + [f[|f| - 1]]) + Reverse(f[..|f| - 1][|f| - 1 - (n - 1)..]) == t + Reverse(f[|f| - n..])
  {
    var lifted1 := f[..|f| - 1][|f| - 1 - (n - 1)..];
    LiftTopLast(f, n);
    ReverseOfSnoc(lifted1, f[|f| - 1]);
  }

  /** A step of one crate is the same in both parts. */
  lemma SingleCrateSameInBothParts(stacks: seq<Stack>, step: MoveStep)
    requires ValidStep(stacks, step) && step.quantity == 1
    ensures ApplyStep(stacks, step, false) == ApplyStep(stacks, step, true)
  {
    var lifted := LiftCrates(stacks[step.from - 1], 1).1;
    assert Reverse(lifted) == lifted;
  }

  /** Onto its own stack, a step of part two leaves the stacks as they were,
      while a step of part one turns its top crates upside down. */
  lemma SameStackStep(stacks: seq<Stack>, step: MoveStep)
    requires ValidStep(stacks, step) && step.from == step.to
    ensures ApplyStep(stacks, step, true) == stacks
    ensures var s := stacks[step.from - 1];
      ApplyStep(stacks, step, false)[step.from - 1]
        == s[..|s| - step.quantity] + Reverse(s[|s| - step.quantity..])
  {
    var s := stacks[step.from - 1];
    assert s[..|s| - step.quantity] + s[|s| - step.quantity..] == s;
  }

  /** The top crate of every stack, collected into a string. `last().unwrap()`
      panics on an empty stack. */
  function TopCrates(stacks: seq<Stack>): (r: string)
    requires forall i :: 0 <= i < |stacks| ==> |stacks[i]| > 0
    ensures |r| == |stacks|
    ensures forall i :: 0 <= i < |stacks| ==> r[i] == stacks[i][|stacks[i]| - 1]
  {
    seq(|stacks|, i requires 0 <= i < |stacks| => stacks[i][|stacks[i]| - 1])
  }

  // ---------------------------------------------------------------------------
  // Parsing
  // ---------------------------------------------------------------------------

  /** `char::is_alphabetic`, on the ASCII letters that label crates. */
  predicate IsAlphabetic(c: char)
  {
    'a' <= c <= 'z' || 'A' <= c <= 'Z'
  }

  function AlphabeticOnly(s: seq<char>): (r: seq<char>)
    ensures forall i :: 0 <= i < |r| ==> IsAlphabetic(r[i])
    ensures |r| <= |s|
  {
    if |s| == 0 then []
    else (if IsAlphabetic(s[0]) then [s[0]] else []) + AlphabeticOnly(s[1..])
  }

  lemma {:induction false} AlphabeticOnlyAppend(a: seq<char>, b: seq<char>)
    ensures AlphabeticOnly(a + b) == AlphabeticOnly(a) + AlphabeticOnly(b)
  {
    if |a| == 0 {
      assert a + b == b;
    } else {
      assert (a + b)[1..] == a[1..] + b;
      AlphabeticOnlyAppend(a[1..], b);
    }
  }

  /** The number of stacks: the columns `1, 5, 9, …` up to the width of the
      first row, `(0..=width).skip(1).step_by(4)`. */
  function StackCount(width: nat): (n: nat)
    ensures forall k :: 0 <= k < n ==> 1 + 4 * k <= width
    ensures 1 + 4 * n > width
  {
    if width == 0 then 0 else (width - 1) / 4 + 1
  }

  /** A drawing the source can read: it has a first row, and every row reaches
      every label column (`nth(x).unwrap()` panics on a shorter row). The
      column `x` may equal the width of the first row, which only a row longer
      than the first one reaches. */
  predicate ValidDrawing(rows: seq<string>)
  {
    |rows| > 0 && forall r :: 0 <= r < |rows| ==> 4 * StackCount(|rows[0]|) - 3 < |rows[r]|
  }

  /** Column `x` of the drawing read from the bottom row up. */
  function ColumnUp(rows: seq<string>, x: nat): (c: seq<char>)
    requires forall r :: 0 <= r < |rows| ==> x < |rows[r]|
    ensures |c| == |rows| && forall j :: 0 <= j < |rows| ==> c[j] == rows[|rows| - 1 - j][x]
  {
    seq(|rows|, j requires 0 <= j < |rows| => rows[|rows| - 1 - j][x])
  }

  /** `parse_crates`: stack `k` holds the letters of column `1 + 4k`, bottom
      row first; anything else in the column (blanks, the stack numbers) is
      skipped. */
  function ParseCrates(rows: seq<string>): (stacks: seq<Stack>)
    requires ValidDrawing(rows)
    ensures |stacks| == StackCount(|rows[0]|)
    ensures forall k :: 0 <= k < |stacks| ==> |stacks[k]| <= |rows|
    ensures forall k :: 0 <= k < |stacks| ==> forall i :: 0 <= i < |stacks[k]| ==> IsAlphabetic(stacks[k][i])
  {
    var n := StackCount(|rows[0]|);
    seq(n, k requires 0 <= k < n => AlphabeticOnly(ColumnUp(rows, 1 + 4 * k)))
  }

  /** The drawing of the stacks as the puzzle writes it: one row per level,
      the top level first, each crate written `[X]` in its four-character
      column, then the row of stack numbers. */
  function LevelRow(stacks: seq<Stack>, h: nat): (row: string)
    requires |stacks| > 0
    ensures |row| == 4 * |stacks| - 1
  {
    seq(4 * |stacks| - 1, j requires 0 <= j < 4 * |stacks| - 1 =>
      var st := stacks[j / 4];
      if h < |st| && j % 4 == 0 then '['
      else if h < |st| && j % 4 == 1 then st[h]
      else if h < |st| && j % 4 == 2 then ']'
      else ' ')
  }

  function NumberRow(n: nat): (row: string)
    requires n > 0
    ensures |row| == 4 * n - 1
  {
    seq(4 * n - 1, j requires 0 <= j < 4 * n - 1 => if j % 4 == 1 then DigitChar((j / 4 + 1) % 10) else ' ')
  }

  function Drawing(stacks: seq<Stack>, height: nat): (rows: seq<string>)
    requires |stacks| > 0
    ensures |rows| == height + 1
  {
    seq(height, k requires 0 <= k < height => LevelRow(stacks, height - 1 - k)) + [NumberRow(|stacks|)]
  }

  /** A stack padded with blanks up to `height`. */
  function Padded(st: Stack, height: nat): (r: seq<char>)
    requires |st| <= height
    ensures |r| == height
  {
    st + seq(height - |st|, _ => ' ')
  }

  lemma {:induction false} AlphabeticOnlyPadded(st: Stack, height: nat)
    requires |st| <= height
    requires forall i :: 0 <= i < |st| ==> IsAlphabetic(st[i])
    ensures AlphabeticOnly(Padded(st, height)) == st
    decreases height
  {
    if |st| == height {
      AlphabeticOnlyKeeps(st);
      assert Padded(st, height) == st;
    } else {
      var blanks := seq(height - |st|, _ => ' ');
      assert blanks == seq(height - 1 - |st|, _ => ' ') + [' '];
      assert Padded(st, height) == Padded(st, height - 1) + [' '];
      AlphabeticOnlyPadded(st, height - 1);
      AlphabeticOnlyAppend(Padded(st, height - 1), [' ']);
    }
  }

  lemma {:induction false} AlphabeticOnlyKeeps(s: seq<char>)
    requires forall i :: 0 <= i < |s| ==> IsAlphabetic(s[i])
    ensures AlphabeticOnly(s) == s
  {
    if |s| > 0 {
      AlphabeticOnlyKeeps(s[1..]);
    }
  }

  /** Reading back a drawing of stacks of letters gives the stacks. */
  lemma ParseDrawing(stacks: seq<Stack>, height: nat)
    requires |stacks| > 0
    requires forall k :: 0 <= k < |stacks| ==> |stacks[k]| <= height
    requires forall k :: 0 <= k < |stacks| ==> forall i :: 0 <= i < |stacks[k]| ==> IsAlphabetic(stacks[k][i])
    ensures ValidDrawing(Drawing(stacks, height))
    ensures ParseCrates(Drawing(stacks, height)) == stacks
  {
    var rows := Drawing(stacks, height);
    DrawingRowLengths(stacks, height);
    var parsed := ParseCrates(rows);
    forall k | 0 <= k < |stacks|
      ensures parsed[k] == stacks[k]
    {
      DrawingColumn(stacks, height, k);
    }
  }

  /** Every row of a drawing is as wide as the row of stack numbers, which
      ends at the last label column. */
  lemma DrawingRowLengths(stacks: seq<Stack>, height: nat)
    requires |stacks| > 0
    ensures forall r :: 0 <= r < height + 1 ==> |Drawing(stacks, height)[r]| == 4 * |stacks| - 1
    ensures StackCount(4 * |stacks| - 1) == |stacks|
    ensures ValidDrawing(Drawing(stacks, height))
  {
    var rows := Drawing(stacks, height);
    forall r | 0 <= r < |rows|
      ensures |rows[r]| == 4 * |stacks| - 1
    {
      if r < height {
        assert rows[r] == LevelRow(stacks, height - 1 - r);
      } else {
        assert rows[r] == NumberRow(|stacks|);
      }
    }
  }

  /** The label column of stack `k`, read upward: its number, then its crates
      and blanks; the letters are the stack. */
  lemma DrawingColumn(stacks: seq<Stack>, height: nat, k: nat)
    requires |stacks| > 0 && k < |stacks|
    requires forall j :: 0 <= j < |stacks| ==> |stacks[j]| <= height
    requires forall i :: 0 <= i < |stacks[k]| ==> IsAlphabetic(stacks[k][i])
    requires ValidDrawing(Drawing(stacks, height)) && StackCount(4 * |stacks| - 1) == |stacks|
    requires forall r :: 0 <= r < height + 1 ==> |Drawing(stacks, height)[r]| == 4 * |stacks| - 1
    ensures |ParseCrates(Drawing(stacks, height))| == |stacks|
    ensures ParseCrates(Drawing(stacks, height))[k] == stacks[k]
  {
    var rows := Drawing(stacks, height);
    var col := ColumnUp(rows, 1 + 4 * k);
    var st := stacks[k];
    var number := [DigitChar((k + 1) % 10)];
    forall h | 0 <= h < height + 1
      ensures col[h] == (number + Padded(st, height))[h]
    {
      DrawingLabel(stacks, height, k, height - h);
    }
    assert col == number + Padded(st, height);
    AlphabeticOnlyAppend(number, Padded(st, height));
    AlphabeticOnlyPadded(st, height);
  }

  /** Row `r` of a drawing at the label column of stack `k`: a crate letter,
      a blank, or, on the last row, the stack number. */
  lemma DrawingLabel(stacks: seq<Stack>, height: nat, k: nat, r: nat)
    requires |stacks| > 0 && k < |stacks| && r <= height
    requires |stacks[k]| <= height
    ensures 1 + 4 * k < |Drawing(stacks, height)[r]|
    ensures r == height ==> Drawing(stacks, height)[r][1 + 4 * k] == DigitChar((k + 1) % 10)
    ensures r < height ==> Drawing(stacks, height)[r][1 + 4 * k] == Padded(stacks[k], height)[height - 1 - r]
  {
    var j := 1 + 4 * k;
    assert j / 4 == k && j % 4 == 1;
    if r == height {
      assert Drawing(stacks, height)[r] == NumberRow(|stacks|);
    } else {
      assert Drawing(stacks, height)[r] == LevelRow(stacks, height - 1 - r);
    }
  }

  /** `parse_steps` on one line: the second, fourth and sixth words are the
      quantity, the source and the target. */
  predicate IsStepText(line: string)
  {
    var words := Words(line);
    |words| >= 6 && ParseNat(words[1]).Some? && ParseNat(words[3]).Some? && ParseNat(words[5]).Some?
  }

  function ParseStep(line: string): MoveStep
    requires IsStepText(line)
  {
    var words := Words(line);
    MoveStep(ParseNat(words[1]).value, ParseNat(words[3]).value, ParseNat(words[5]).value)
  }

  function ShowStep(step: MoveStep): string
  {
    "move " + ShowNat(step.quantity) + " from " + ShowNat(step.from) + " to " + ShowNat(step.to)
  }

  /** A step written the puzzle's way reads back as itself. */
  lemma ParseShowStep(step: MoveStep)
    ensures IsStepText(ShowStep(step)) && ParseStep(ShowStep(step)) == step
  {
    ShowStepWords(step);
    ParseShowNat(step.quantity);
    ParseShowNat(step.from);
    ParseShowNat(step.to);
  }

  /** The words of a written step are its six parts. */
  lemma ShowStepWords(step: MoveStep)
    ensures Words(ShowStep(step))
         == ["move", ShowNat(step.quantity), "from", ShowNat(step.from), "to", ShowNat(step.to)]
  {
    var words := ["move", ShowNat(step.quantity), "from", ShowNat(step.from), "to", ShowNat(step.to)];
    JoinSix(words);
    ShowStepSpelled(step);
    forall i | 0 <= i < |words|
      ensures |words[i]| > 0 && ' ' !in words[i]
    {
    }
    WordsJoin(words);
  }

  /** The written step, word by word. */
  lemma ShowStepSpelled(step: MoveStep)
    ensures ShowStep(step)
         == "move" + " " + ShowNat(step.quantity) + " " + "from" + " " + ShowNat(step.from) + " " + "to" + " " + ShowNat(step.to)
  {
    assert "move " == "move" + " ";
    assert " from " == " " + "from" + " ";
    assert " to " == " " + "to" + " ";
  }

  /** Six words joined with blanks. */
  lemma JoinSix(words: seq<string>)
    requires |words| == 6
    ensures Join(words, " ")
         == words[0] + " " + words[1] + " " + words[2] + " " + words[3] + " " + words[4] + " " + words[5]
  {
    assert Join(words[5..], " ") == words[5];
    assert Join(words[4..], " ") == words[4] + " " + words[5];
    assert Join(words[3..], " ") == words[3] + " " + Join(words[4..], " ");
    assert Join(words[2..], " ") == words[2] + " " + Join(words[3..], " ");
    assert Join(words[1..], " ") == words[1] + " " + Join(words[2..], " ");
  }

  /** An input the source reads without panicking: a blank line separating a
      readable drawing from lines that are all steps. */
  predicate ValidInput(input: string)
  {
    && SplitOnceAt(input, "\n\n").Some?
    && ValidDrawing(Lines(SplitOnceAt(input, "\n\n").value.0))
    && forall i :: 0 <= i < |Lines(SplitOnceAt(input, "\n\n").value.1)| ==>
         IsStepText(Lines(SplitOnceAt(input, "\n\n").value.1)[i])
  }

  /** `parse_input`: the stacks from the drawing before the first blank
      line, then one step per line after it. */
  function ParseInput(input: string): (r: (seq<Stack>, seq<MoveStep>))
    requires ValidInput(input)
    ensures r.0 == ParseCrates(Lines(SplitOnceAt(input, "\n\n").value.0))
    ensures |r.1| == |Lines(SplitOnceAt(input, "\n\n").value.1)|
    ensures forall i :: 0 <= i < |r.1| ==> r.1[i] == ParseStep(Lines(SplitOnceAt(input, "\n\n").value.1)[i])
  {
    var (drawing, procedure) := SplitOnceAt(input, "\n\n").value;
    var lines := Lines(procedure);
    (ParseCrates(Lines(drawing)), seq(|lines|, i requires 0 <= i < |lines| => ParseStep(lines[i])))
  }

  /** `answer` is what the puzzle asks after the steps, run with the crane of
      part one (`keepOrder` false) or part two: there is one exactly when
      every step can be carried out and no stack ends empty, and its letter
      `i` is then the top crate of stack `i`. */
  predicate IsAnswer(stacks: seq<Stack>, steps: seq<MoveStep>, keepOrder: bool, answer: Option<string>)
  {
    var run := Run(stacks, steps, keepOrder);
    && (answer.Some? <==> run.Some? && forall i :: 0 <= i < |run.value| ==> |run.value[i]| > 0)
    && (answer.Some? ==>
          && |answer.value| == |run.value| == |stacks|
          && forall i :: 0 <= i < |run.value| ==> answer.value[i] == run.value[i][|run.value[i]| - 1])
  }

  /** `part_one` / `part_two`: the top crates after every step. `None`
      stands for the panic of a step the source cannot carry out or of a
      stack left empty. */
  function Solve(input: string, keepOrder: bool): (r: Option<string>)
    requires ValidInput(input)
    ensures IsAnswer(ParseInput(input).0, ParseInput(input).1, keepOrder, r)
  {
    var (stacks, steps) := ParseInput(input);
    match Run(stacks, steps, keepOrder)
    case None => None
    case Some(final) =>
      if forall i :: 0 <= i < |final| ==> |final[i]| > 0 then Some(TopCrates(final)) else None
  }

  /** `part_one`: the crates land reversed. */
  function PartOne(input: string): (r: Option<string>)
    requires ValidInput(input)
    ensures IsAnswer(ParseInput(input).0, ParseInput(input).1, false, r)
  {
    Solve(input, false)
  }

  /** `part_two`: the crates keep their order. */
  function PartTwo(input: string): (r: Option<string>)
    requires ValidInput(input)
    ensures IsAnswer(ParseInput(input).0, ParseInput(input).1, true, r)
  {
    Solve(input, true)
  }

  /** A step between two different stacks gives the stacks its contract
      describes, and no others. */
  lemma StepResult(stacks: seq<Stack>, step: MoveStep, keepOrder: bool, expected: seq<Stack>)
    requires ValidStep(stacks, step) && step.from != step.to
    requires |expected| == |stacks|
    requires forall i :: 0 <= i < |stacks| && i != step.from - 1 && i != step.to - 1 ==> expected[i] == stacks[i]
    requires expected[step.from - 1] == stacks[step.from - 1][..|stacks[step.from - 1]| - step.quantity]
    requires expected[step.to - 1] ==
      stacks[step.to - 1] + Unloaded(stacks[step.from - 1][|stacks[step.from - 1]| - step.quantity..], keepOrder)
    ensures ApplyStep(stacks, step, keepOrder) == expected
  {
    var lifted := stacks[step.from - 1][|stacks[step.from - 1]| - step.quantity..];
    StepWith(stacks, step, keepOrder, Unloaded(lifted, keepOrder), expected);
  }

  /** `StepResult` with the crates that land on the target stack named. */
  lemma StepWith(stacks: seq<Stack>, step: MoveStep, keepOrder: bool, moved: seq<char>, expected: seq<Stack>)
    requires ValidStep(stacks, step) && step.from != step.to
    requires moved == Unloaded(stacks[step.from - 1][|stacks[step.from - 1]| - step.quantity..], keepOrder)
    requires |expected| == |stacks|
    requires forall i :: 0 <= i < |stacks| && i != step.from - 1 && i != step.to - 1 ==> expected[i] == stacks[i]
    requires expected[step.from - 1] == stacks[step.from - 1][..|stacks[step.from - 1]| - step.quantity]
    requires expected[step.to - 1] == stacks[step.to - 1] + moved
    ensures ApplyStep(stacks, step, keepOrder) == expected
  {
    var updated := stacks[step.from - 1 := expected[step.from - 1]][step.to - 1 := stacks[step.to - 1] + moved];
    assert ApplyStep(stacks, step, keepOrder) == updated;
    assert updated == expected;
  }

  /** The example of the tests, parsed: part one ends with `CMZ` on top and
      part two with `MCD`. */
  lemma Example(stacks: seq<Stack>, steps: seq<MoveStep>)
    requires stacks == ["ZN", "MCD", "P"]
    requires steps == [MoveStep(1, 2, 1), MoveStep(3, 1, 3), MoveStep(2, 2, 1), MoveStep(1, 1, 2)]
    ensures Run(stacks, steps, false) == Some(["C", "M", "PDNZ"])
    ensures Run(stacks, steps, true) == Some(["M", "C", "PZND"])
    ensures IsAnswer(stacks, steps, false, Some("CMZ"))
    ensures IsAnswer(stacks, steps, true, Some("MCD"))
  {
    ExamplePartOne(stacks, steps);
    ExampleAnswerOne(stacks, steps, ["C", "M", "PDNZ"]);
    ExamplePartTwo(stacks, steps);
    ExampleAnswerTwo(stacks, steps, ["M", "C", "PZND"]);
  }

  /** Steps that end in the example's final stacks of part one answer `CMZ`. */
  lemma ExampleAnswerOne(stacks: seq<Stack>, steps: seq<MoveStep>, final: seq<Stack>)
    requires Run(stacks, steps, false) == Some(final)
    requires |final| == 3 && final[0] == "C" && final[1] == "M" && final[2] == "PDNZ"
    ensures IsAnswer(stacks, steps, false, Some("CMZ"))
  {
    ThreeTops(final, "CMZ");
    AnswerOfRun(stacks, steps, false, final, "CMZ");
  }

  /** Steps that end in the example's final stacks of part two answer `MCD`. */
  lemma ExampleAnswerTwo(stacks: seq<Stack>, steps: seq<MoveStep>, final: seq<Stack>)
    requires Run(stacks, steps, true) == Some(final)
    requires |final| == 3 && final[0] == "M" && final[1] == "C" && final[2] == "PZND"
    ensures IsAnswer(stacks, steps, true, Some("MCD"))
  {
    ThreeTops(final, "MCD");
    AnswerOfRun(stacks, steps, true, final, "MCD");
  }

  /** Three stacks whose top crates are the three letters of `answer`. */
  lemma ThreeTops(final: seq<Stack>, answer: string)
    requires |final| == 3 && |answer| == 3 && |final[0]| > 0 && |final[1]| > 0 && |final[2]| > 0
    requires answer[0] == final[0][|final[0]| - 1] && answer[1] == final[1][|final[1]| - 1]
    requires answer[2] == final[2][|final[2]| - 1]
    ensures forall i :: 0 <= i < |final| ==> |final[i]| > 0 && answer[i] == final[i][|final[i]| - 1]
  {
  }

  /** A run that ends with no stack empty answers with its top crates. */
  lemma AnswerOfRun(stacks: seq<Stack>, steps: seq<MoveStep>, keepOrder: bool, final: seq<Stack>, answer: string)
    requires Run(stacks, steps, keepOrder) == Some(final)
    requires forall i :: 0 <= i < |final| ==> |final[i]| > 0
    requires |answer| == |final| && forall i :: 0 <= i < |final| ==> answer[i] == final[i][|final[i]| - 1]
    ensures IsAnswer(stacks, steps, keepOrder, Some(answer))
  {
  }

  lemma ExamplePartOne(stacks: seq<Stack>, steps: seq<MoveStep>)
    requires stacks == ["ZN", "MCD", "P"]
    requires steps == [MoveStep(1, 2, 1), MoveStep(3, 1, 3), MoveStep(2, 2, 1), MoveStep(1, 1, 2)]
    ensures Run(stacks, steps, false) == Some(["C", "M", "PDNZ"])
  {
    var s1: seq<Stack> := ["ZND", "MC", "P"];
    var s2: seq<Stack> := ["", "MC", "PDNZ"];
    var s3: seq<Stack> := ["CM", "", "PDNZ"];
    var s4: seq<Stack> := ["C", "M", "PDNZ"];
    StepResult(stacks, steps[0], false, s1);
    StepResult(s1, steps[1], false, s2);
    StepResult(s2, steps[2], false, s3);
    StepResult(s3, steps[3], false, s4);
    ExampleRun(stacks, steps, false, s1, s2, s3);
  }

  lemma ExamplePartTwo(stacks: seq<Stack>, steps: seq<MoveStep>)
    requires stacks == ["ZN", "MCD", "P"]
    requires steps == [MoveStep(1, 2, 1), MoveStep(3, 1, 3), MoveStep(2, 2, 1), MoveStep(1, 1, 2)]
    ensures Run(stacks, steps, true) == Some(["M", "C", "PZND"])
  {
    var s1: seq<Stack> := ["ZND", "MC", "P"];
    var s2: seq<Stack> := ["", "MC", "PZND"];
    var s3: seq<Stack> := ["MC", "", "PZND"];
    var s4: seq<Stack> := ["M", "C", "PZND"];
    StepResult(stacks, steps[0], true, s1);
    StepResult(s1, steps[1], true, s2);
    StepResult(s2, steps[2], true, s3);
    StepResult(s3, steps[3], true, s4);
    ExampleRun(stacks, steps, true, s1, s2, s3);
  }

  lemma ExampleRun(stacks: seq<Stack>, steps: seq<MoveStep>, keepOrder: bool,
                   s1: seq<Stack>, s2: seq<Stack>, s3: seq<Stack>)
    requires |steps| == 4 && ValidStep(stacks, steps[0])
    requires s1 == ApplyStep(stacks, steps[0], keepOrder)
    requires ValidStep(s1, steps[1]) && s2 == ApplyStep(s1, steps[1], keepOrder)
    requires ValidStep(s2, steps[2]) && s3 == ApplyStep(s2, steps[2], keepOrder)
    requires ValidStep(s3, steps[3])
    ensures Run(stacks, steps, keepOrder) == Some(ApplyStep(s3, steps[3], keepOrder))
  {
    var s4 := ApplyStep(s3, steps[3], keepOrder);
    assert Run(s4, steps[4..], keepOrder) == Some(s4);
    assert steps[3..][1..] == steps[4..];
    assert Run(s3, steps[3..], keepOrder) == Some(s4);
    assert steps[2..][1..] == steps[3..];
    assert Run(s2, steps[2..], keepOrder) == Some(s4);
    assert steps[1..][1..] == steps[2..];
    assert Run(s1, steps[1..], keepOrder) == Some(s4);
  }
}
