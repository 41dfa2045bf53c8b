/**
  What `align` does after the backtrace: the optional compress pass over
  the first six positions, the label text for each numbered position and its
  insertions, and the counts behind percent identity.
*/
module Numbering {
  import opened Text
  import opened NeedleTable

  // ---------------------------------------------------------------------
  // Compress pass: a lone residue at one of positions 1-5 followed by an
  // empty position moves one step towards the C-terminus, repeatedly,
  // until no such pair is left among the first six positions.
  // ---------------------------------------------------------------------

  /** How far the lone residues among the first six positions still are from position six. */
  function Weight(c: seq<nat>, k: nat): nat
    requires |c| >= 6 && k <= 6
    decreases 6 - k
  {
    if k == 6 then 0 else (if c[k] == 1 then 6 - k else 0) + Weight(c, k + 1)
  }

  /** The pair the compress pass moves: a lone residue at i followed by nothing at i + 1. */
  predicate Movable(c: seq<nat>, i: nat)
    requires i + 1 < |c|
  {
    c[i] == 1 && c[i + 1] == 0
  }

  /** One sweep over i = `i` .. 4, each movable pair shifted as it is reached; also says whether anything moved. */
  function Sweep(c: seq<nat>, i: nat, moved: bool): (r: (seq<nat>, bool))
    requires |c| >= 6 && i <= 5
    ensures |r.0| == |c|
    decreases 5 - i
  {
    if i == 5 then (c, moved)
    else if Movable(c, i) then Sweep(c[i + 1 := c[i]][i := 0], i + 1, true)
    else Sweep(c, i + 1, moved)
  }

  lemma {:induction false} WeightOfShift(c: seq<nat>, i: nat, k: nat)
    requires |c| >= 6 && i < 5 && Movable(c, i) && k <= i
    ensures Weight(c[i + 1 := c[i]][i := 0], k) + 1 == Weight(c, k)
    decreases 6 - k
  {
    var c' := c[i + 1 := c[i]][i := 0];
    if k < i {
      WeightOfShift(c, i, k + 1);
    } else {
      WeightOfTail(c, c', i + 2);
    }
  }

  lemma {:induction false} WeightOfTail(c: seq<nat>, c': seq<nat>, k: nat)
    requires |c| >= 6 && |c'| >= 6 && k <= 6
    requires forall p :: k <= p < 6 ==> c[p] == c'[p]
    ensures Weight(c, k) == Weight(c', k)
    decreases 6 - k
  {
    if k < 6 {
      WeightOfTail(c, c', k + 1);
    }
  }

  /** A sweep that moves something lowers the weight. */
  lemma {:induction false} SweepLowersWeight(c: seq<nat>, i: nat, moved: bool)
    requires |c| >= 6 && i <= 5
    ensures Weight(Sweep(c, i, moved).0, 0) + (if Sweep(c, i, moved).1 && !moved then 1 else 0) <= Weight(c, 0)
    decreases 5 - i
  {
    if i < 5 {
      if Movable(c, i) {
        WeightOfShift(c, i, 0);
        SweepLowersWeight(c[i + 1 := c[i]][i := 0], i + 1, true);
      } else {
        SweepLowersWeight(c, i + 1, moved);
      }
    }
  }

  /** The compress pass: sweeps are repeated until one moves nothing. */
  function Compressed(c: seq<nat>): (r: seq<nat>)
    requires |c| >= 6
    ensures |r| == |c|
    decreases Weight(c, 0)
  {
    var swept := Sweep(c, 0, false);
    SweepLowersWeight(c, 0, false);
    if swept.1 then Compressed(swept.0) else swept.0
  }

  /** What one sweep keeps: the multiset of counts, every count that is not 0 or 1, and everything from position six on. */
  predicate Rearranges(c: seq<nat>, r: seq<nat>)
    requires |c| >= 6
  {
    && |r| == |c|
    && multiset(r) == multiset(c)
    && Sum(r) == Sum(c)
    && (forall k :: 6 <= k < |c| ==> r[k] == c[k])
    && (forall k :: 0 <= k < 6 && c[k] > 1 ==> r[k] == c[k])
  }

  lemma {:induction false} ShiftRearranges(c: seq<nat>, i: nat)
    requires |c| >= 6 && i < 5 && Movable(c, i)
    ensures Rearranges(c, c[i + 1 := c[i]][i := 0])
  {
    var c1 := c[i + 1 := c[i]];
    var c2 := c1[i := 0];
    SumUpdate(c, i + 1, c[i]);
    SumUpdate(c1, i, 0);
    calc {
      multiset(c2);
      multiset(c1) - multiset{c1[i]} + multiset{0};
      multiset(c) - multiset{0} + multiset{1} - multiset{1} + multiset{0};
      multiset(c);
    }
  }

  lemma {:induction false} SweepRearranges(c: seq<nat>, i: nat, moved: bool)
    requires |c| >= 6 && i <= 5
    ensures Rearranges(c, Sweep(c, i, moved).0)
    decreases 5 - i
  {
    if i < 5 {
      if Movable(c, i) {
        var c' := c[i + 1 := c[i]][i := 0];
        ShiftRearranges(c, i);
        SweepRearranges(c', i + 1, true);
      } else {
        SweepRearranges(c, i + 1, moved);
      }
    }
  }

  lemma {:induction false} MovedStaysMoved(c: seq<nat>, i: nat)
    requires |c| >= 6 && i <= 5
    ensures Sweep(c, i, true).1
    decreases 5 - i
  {
    if i < 5 {
      if Movable(c, i) {
        MovedStaysMoved(c[i + 1 := c[i]][i := 0], i + 1);
      } else {
        MovedStaysMoved(c, i + 1);
      }
    }
  }

  /** A sweep that reports no move is the identity, and then no movable pair is left from `i` on. */
  lemma {:induction false} QuietSweep(c: seq<nat>, i: nat)
    requires |c| >= 6 && i <= 5
    ensures !Sweep(c, i, false).1 ==> Sweep(c, i, false).0 == c && forall k :: i <= k < 5 ==> !Movable(c, k)
    decreases 5 - i
  {
    if i < 5 {
      if Movable(c, i) {
        MovedStaysMoved(c[i + 1 := c[i]][i := 0], i + 1);
      } else {
        QuietSweep(c, i + 1);
      }
    }
  }

  /**
    The compress pass only permutes the counts: it keeps their multiset and
    total, every count above one, and all positions from the seventh on.
  */
  lemma {:induction false} CompressedRearranges(c: seq<nat>)
    requires |c| >= 6
    ensures Rearranges(c, Compressed(c))
    decreases Weight(c, 0)
  {
    var swept := Sweep(c, 0, false);
    SweepRearranges(c, 0, false);
    SweepLowersWeight(c, 0, false);
    if swept.1 {
      CompressedRearranges(swept.0);
    }
  }

  /** After the compress pass no lone residue among positions 1-5 is followed by an empty position. */
  lemma {:induction false} CompressedSettled(c: seq<nat>)
    requires |c| >= 6
    ensures forall k :: 0 <= k < 5 ==> !Movable(Compressed(c), k)
    decreases Weight(c, 0)
  {
    var swept := Sweep(c, 0, false);
    SweepLowersWeight(c, 0, false);
    if swept.1 {
      CompressedSettled(swept.0);
    } else {
      QuietSweep(c, 0);
    }
  }

  /** A count table with no movable pair is left as it is. */
  lemma CompressedFixesSettled(c: seq<nat>)
    requires |c| >= 6
    requires forall k :: 0 <= k < 5 ==> !Movable(c, k)
    ensures Compressed(c) == c
  {
    SweepWithoutMovable(c, 0);
  }

  lemma {:induction false} SweepWithoutMovable(c: seq<nat>, i: nat)
    requires |c| >= 6 && i <= 5
    requires forall k :: i <= k < 5 ==> !Movable(c, k)
    ensures Sweep(c, i, false) == (c, false)
    decreases 5 - i
  {
    if i < 5 {
      SweepWithoutMovable(c, i + 1);
    }
  }

  /** The compress loop of `align`, in place on the count array. */
  method CompressInitialGaps(initNumbering: array<nat>)
    requires initNumbering.Length >= 6
    modifies initNumbering
    ensures initNumbering[..] == Compressed(old(initNumbering[..]))
  {
    var gapsFilled := false;
    while !gapsFilled
      invariant gapsFilled ==> initNumbering[..] == Compressed(old(initNumbering[..]))
      invariant !gapsFilled ==> Compressed(initNumbering[..]) == Compressed(old(initNumbering[..]))
      decreases Weight(initNumbering[..], 0) + (if gapsFilled then 0 else 1)
    {
      gapsFilled := true;
      ghost var before := initNumbering[..];
      for i := 0 to 5
        invariant Sweep(initNumbering[..], i, !gapsFilled) == Sweep(before, 0, false)
      {
        if initNumbering[i] == 1 && initNumbering[i + 1] == 0 {
          ghost var current := initNumbering[..];
          initNumbering[i + 1] := initNumbering[i];
          initNumbering[i] := 0;
          gapsFilled := false;
          assert initNumbering[..] == current[i + 1 := current[i]][i := 0];
        }
      }
      SweepLowersWeight(before, 0, false);
    }
  }

  // ---------------------------------------------------------------------
  // Labels
  // ---------------------------------------------------------------------

  /** One entry of the numbering and the template position it stands for (-1: an insertion or an overhang). */
  datatype Labeled = Labeled(text: string, key: int)

  function Texts(ls: seq<Labeled>): (t: seq<string>)
    ensures |t| == |ls| && forall k :: 0 <= k < |ls| ==> t[k] == ls[k].text
  {
    seq(|ls|, k requires 0 <= k < |ls| => ls[k].text)
  }

  function Keys(ls: seq<Labeled>): (t: seq<int>)
    ensures |t| == |ls| && forall k :: 0 <= k < |ls| ==> t[k] == ls[k].key
  {
    seq(|ls|, k requires 0 <= k < |ls| => ls[k].key)
  }

  /** `n` overhang entries: "-" with no template position. */
  function Overhang(n: nat): seq<Labeled>
  {
    seq(n, _ => Labeled("-", -1))
  }

  /** Insertion labels `base` + alphabet[0], ..., `base` + alphabet[n - 1]. */
  function Lettered(base: string, alphabet: seq<string>, n: nat): seq<Labeled>
    requires n <= |alphabet|
  {
    if n == 0 then [] else Lettered(base, alphabet, n - 1) + [Labeled(base + alphabet[n - 1], -1)]
  }

  /** Insertion labels `base` + alphabet[hi - 1], ..., `base` + alphabet[lo], backwards. */
  function Backwards(base: string, alphabet: seq<string>, hi: nat, lo: nat): seq<Labeled>
    requires lo <= hi <= |alphabet|
    decreases hi - lo
  {
    if lo == hi then [] else Backwards(base, alphabet, hi, lo + 1) + [Labeled(base + alphabet[lo], -1)]
  }

  lemma {:induction false} LetteredAt(base: string, alphabet: seq<string>, n: nat)
    requires n <= |alphabet|
    ensures var r := Lettered(base, alphabet, n);
      |r| == n && forall k :: 0 <= k < n ==> r[k] == Labeled(base + alphabet[k], -1)
  {
    if n > 0 {
      LetteredAt(base, alphabet, n - 1);
    }
  }

  lemma {:induction false} BackwardsAt(base: string, alphabet: seq<string>, hi: nat, lo: nat)
    requires lo <= hi <= |alphabet|
    ensures var r := Backwards(base, alphabet, hi, lo);
      |r| == hi - lo && forall k :: 0 <= k < hi - lo ==> r[k] == Labeled(base + alphabet[hi - 1 - k], -1)
    decreases hi - lo
  {
    if lo < hi {
      BackwardsAt(base, alphabet, hi, lo + 1);
    }
  }

  /**
    How one position's insertions are lettered: in order after the
    position (`Plain`), split around it with the second half backwards and
    the position last (`SplitBefore`, the IMGT CDR1 and CDR2 points), or
    the position first and the two halves after it (`SplitAfter`, the IMGT
    CDR3 point).
  */
  datatype Style = Plain | SplitBefore | SplitAfter

  /** The `n` labels for template position `i` (0-based) that holds `n` query residues. */
  function PositionLabels(style: Style, alphabet: seq<string>, i: nat, n: nat): seq<Labeled>
    requires 1 <= n <= |alphabet|
  {
    var here := Labeled(NatToString(i + 1), i);
    match style
    case Plain => [here] + Lettered(NatToString(i + 1), alphabet, n - 1)
    case SplitBefore =>
      Lettered(NatToString(i), alphabet, (n - 1) / 2) + Backwards(NatToString(i + 1), alphabet, n / 2, 0) + [here]
    case SplitAfter =>
      [here] + Lettered(NatToString(i + 1), alphabet, (n - 1) / 2) + Backwards(NatToString(i + 2), alphabet, n / 2, 0)
  }

  /** Where the one label carrying the position itself sits. */
  function Anchor(style: Style, n: nat): nat
    requires n >= 1
  {
    if style == SplitBefore then n - 1 else 0
  }

  /** `n` keys of -1. */
  function NoKeys(n: nat): (k: seq<int>)
    ensures |k| == n
  {
    seq(n, _ => -1)
  }

  lemma KeysAppend(a: seq<Labeled>, b: seq<Labeled>)
    ensures Keys(a + b) == Keys(a) + Keys(b)
  {
  }

  lemma {:induction false} LetteredKeys(base: string, alphabet: seq<string>, n: nat)
    requires n <= |alphabet|
    ensures Keys(Lettered(base, alphabet, n)) == NoKeys(n)
  {
    if n > 0 {
      LetteredKeys(base, alphabet, n - 1);
      KeysAppend(Lettered(base, alphabet, n - 1), [Labeled(base + alphabet[n - 1], -1)]);
      assert NoKeys(n) == NoKeys(n - 1) + [-1];
    }
  }

  lemma {:induction false} BackwardsKeys(base: string, alphabet: seq<string>, hi: nat, lo: nat)
    requires lo <= hi <= |alphabet|
    ensures Keys(Backwards(base, alphabet, hi, lo)) == NoKeys(hi - lo)
    decreases hi - lo
  {
    if lo < hi {
      BackwardsKeys(base, alphabet, hi, lo + 1);
      KeysAppend(Backwards(base, alphabet, hi, lo + 1), [Labeled(base + alphabet[lo], -1)]);
      assert NoKeys(hi - lo) == NoKeys(hi - (lo + 1)) + [-1];
    }
  }

  /**
    A position holding `n` residues gets exactly `n` labels, and exactly one
    of them, last for `SplitBefore` and first otherwise, carries the position.
  */
  lemma PositionLabelsKeys(style: Style, alphabet: seq<string>, i: nat, n: nat)
    requires 1 <= n <= |alphabet|
    ensures Keys(PositionLabels(style, alphabet, i, n)) == if style == SplitBefore then NoKeys(n - 1) + [i] else [i] + NoKeys(n - 1)
  {
    match style
    case Plain => PlainLabelsKeys(alphabet, i, n);
    case SplitBefore => SplitBeforeLabelsKeys(alphabet, i, n);
    case SplitAfter => SplitAfterLabelsKeys(alphabet, i, n);
  }

  lemma PlainLabelsKeys(alphabet: seq<string>, i: nat, n: nat)
    requires 1 <= n <= |alphabet|
    ensures Keys(PositionLabels(Plain, alphabet, i, n)) == [i] + NoKeys(n - 1)
  {
    var here := Labeled(NatToString(i + 1), i);
    var rest := Lettered(NatToString(i + 1), alphabet, n - 1);
    LetteredKeys(NatToString(i + 1), alphabet, n - 1);
    KeysAppend([here], rest);
    assert PositionLabels(Plain, alphabet, i, n) == [here] + rest;
  }

  lemma SplitBeforeLabelsKeys(alphabet: seq<string>, i: nat, n: nat)
    requires 1 <= n <= |alphabet|
    ensures Keys(PositionLabels(SplitBefore, alphabet, i, n)) == NoKeys(n - 1) + [i]
  {
    var f, c := (n - 1) / 2, n / 2;
    var here := Labeled(NatToString(i + 1), i);
    var front := Lettered(NatToString(i), alphabet, f);
    var back := Backwards(NatToString(i + 1), alphabet, c, 0);
    LetteredKeys(NatToString(i), alphabet, f);
    BackwardsKeys(NatToString(i + 1), alphabet, c, 0);
    SplitKeys(front, back, here, f, c);
    assert PositionLabels(SplitBefore, alphabet, i, n) == front + back + [here];
  }

  lemma SplitAfterLabelsKeys(alphabet: seq<string>, i: nat, n: nat)
    requires 1 <= n <= |alphabet|
    ensures Keys(PositionLabels(SplitAfter, alphabet, i, n)) == [i] + NoKeys(n - 1)
  {
    var f, c := (n - 1) / 2, n / 2;
    var here := Labeled(NatToString(i + 1), i);
    var front := Lettered(NatToString(i + 1), alphabet, f);
    var back := Backwards(NatToString(i + 2), alphabet, c, 0);
    LetteredKeys(NatToString(i + 1), alphabet, f);
    BackwardsKeys(NatToString(i + 2), alphabet, c, 0);
    SplitKeys(front, back, here, f, c);
    assert PositionLabels(SplitAfter, alphabet, i, n) == [here] + front + back;
  }

  lemma SplitKeys(front: seq<Labeled>, back: seq<Labeled>, here: Labeled, f: nat, c: nat)
    requires Keys(front) == NoKeys(f) && Keys(back) == NoKeys(c)
    ensures Keys(front + back + [here]) == NoKeys(f + c) + [here.key]
    ensures Keys([here] + front + back) == [here.key] + NoKeys(f + c)
  {
    KeysAppend(front, back);
    KeysAppend(front + back, [here]);
    KeysAppend([here], front);
    KeysAppend([here] + front, back);
    assert NoKeys(f) + NoKeys(c) == NoKeys(f + c);
  }

  /** The labels of a `Plain` position: its number, then the number with alphabet[0], alphabet[1], ... */
  lemma PlainLabelsText(alphabet: seq<string>, i: nat, n: nat, k: nat)
    requires 1 <= n <= |alphabet| && k < n
    ensures |PositionLabels(Plain, alphabet, i, n)| == n
    ensures PositionLabels(Plain, alphabet, i, n)[k].text
      == if k == 0 then NatToString(i + 1) else NatToString(i + 1) + alphabet[k - 1]
  {
    LetteredAt(NatToString(i + 1), alphabet, n - 1);
  }

  /**
    The labels of an IMGT CDR1 or CDR2 point i (0-based): the first
    (n - 1) / 2 insertions lettered forwards after number i, the next n / 2
    lettered backwards on number i + 1, and number i + 1 itself last.
  */
  lemma SplitBeforeLabelsText(alphabet: seq<string>, i: nat, n: nat, k: nat)
    requires 1 <= n <= |alphabet| && k < n
    ensures |PositionLabels(SplitBefore, alphabet, i, n)| == n
    ensures PositionLabels(SplitBefore, alphabet, i, n)[k].text
      == if k < (n - 1) / 2 then NatToString(i) + alphabet[k]
         else if k < n - 1 then NatToString(i + 1) + alphabet[n / 2 - 1 - (k - (n - 1) / 2)]
         else NatToString(i + 1)
  {
    var f, c := (n - 1) / 2, n / 2;
    var front := Lettered(NatToString(i), alphabet, f);
    var back := Backwards(NatToString(i + 1), alphabet, c, 0);
    LetteredAt(NatToString(i), alphabet, f);
    BackwardsAt(NatToString(i + 1), alphabet, c, 0);
    var r := front + back + [Labeled(NatToString(i + 1), i)];
    assert PositionLabels(SplitBefore, alphabet, i, n) == r;
    if k < f {
      assert r[k] == front[k];
    } else if k < n - 1 {
      assert r[k] == back[k - f];
    }
  }

  /**
    The labels of the IMGT CDR3 point i (0-based): number i + 1 first, then
    (n - 1) / 2 insertions lettered forwards on it, then n / 2 lettered
    backwards on number i + 2.
  */
  lemma SplitAfterLabelsText(alphabet: seq<string>, i: nat, n: nat, k: nat)
    requires 1 <= n <= |alphabet| && k < n
    ensures |PositionLabels(SplitAfter, alphabet, i, n)| == n
    ensures PositionLabels(SplitAfter, alphabet, i, n)[k].text
      == if k == 0 then NatToString(i + 1)
         else if k <= (n - 1) / 2 then NatToString(i + 1) + alphabet[k - 1]
         else NatToString(i + 2) + alphabet[n / 2 - 1 - (k - 1 - (n - 1) / 2)]
  {
    var f, c := (n - 1) / 2, n / 2;
    var front := Lettered(NatToString(i + 1), alphabet, f);
    var back := Backwards(NatToString(i + 2), alphabet, c, 0);
    LetteredAt(NatToString(i + 1), alphabet, f);
    BackwardsAt(NatToString(i + 2), alphabet, c, 0);
    var r := [Labeled(NatToString(i + 1), i)] + front + back;
    assert PositionLabels(SplitAfter, alphabet, i, n) == r;
    if 0 < k <= f {
      assert r[k] == front[k - 1];
    } else if k > f {
      assert r[k] == back[k - 1 - f];
    }
  }

  /** The numbering scheme facts the labelling depends on. */
  datatype LabelPlan = LabelPlan(imgt: bool, alphabet: seq<string>, cdr1: int, cdr2: int, cdr3: int)

  function StyleAt(plan: LabelPlan, i: nat): Style
  {
    if !plan.imgt then Plain
    else if i == plan.cdr1 || i == plan.cdr2 then SplitBefore
    else if i == plan.cdr3 then SplitAfter
    else Plain
  }

  /** The largest residue count one position may hold: the alphabet size, and for IMGT also at most 70. */
  function InsertionLimit(plan: LabelPlan): nat
  {
    if plan.imgt && |plan.alphabet| > 70 then 70 else |plan.alphabet|
  }

  /** Labels of positions 0 .. k - 1, stopping at the first position that holds too many residues. */
  datatype Assembly = Assembly(labels: seq<Labeled>, overflow: bool)

  function Assemble(plan: LabelPlan, counts: seq<nat>, k: nat): Assembly
    requires k <= |counts|
  {
    if k == 0 then Assembly([], false)
    else
      var prev := Assemble(plan, counts, k - 1);
      var n := counts[k - 1];
      if prev.overflow || n == 0 then prev
      else if n > InsertionLimit(plan) then Assembly(prev.labels, true)
      else Assembly(prev.labels + PositionLabels(StyleAt(plan, k - 1), plan.alphabet, k - 1, n), false)
  }

  /** Assembly fails exactly when some position holds more residues than the limit. */
  lemma {:induction false} AssembleOverflow(plan: LabelPlan, counts: seq<nat>, k: nat)
    requires k <= |counts|
    ensures Assemble(plan, counts, k).overflow <==> exists p :: 0 <= p < k && counts[p] > InsertionLimit(plan)
  {
    if k > 0 {
      AssembleOverflow(plan, counts, k - 1);
    }
  }

  /** Without overflow every residue counted gets one label. */
  lemma {:induction false} AssembleLength(plan: LabelPlan, counts: seq<nat>, k: nat)
    requires k <= |counts|
    requires !Assemble(plan, counts, k).overflow
    ensures |Assemble(plan, counts, k).labels| == Sum(counts[..k])
  {
    if k > 0 {
      var prev := Assemble(plan, counts, k - 1);
      var n := counts[k - 1];
      assert !prev.overflow;
      AssembleLength(plan, counts, k - 1);
      if n > 0 {
        var added := PositionLabels(StyleAt(plan, k - 1), plan.alphabet, k - 1, n);
        PositionLabelsLength(StyleAt(plan, k - 1), plan.alphabet, k - 1, n);
        assert Assemble(plan, counts, k).labels == prev.labels + added;
      }
      assert counts[..k] == counts[..k - 1] + [n];
      SumAppend(counts[..k - 1], [n]);
    }
  }

  lemma PositionLabelsLength(style: Style, alphabet: seq<string>, i: nat, n: nat)
    requires 1 <= n <= |alphabet|
    ensures |PositionLabels(style, alphabet, i, n)| == n
  {
    PositionLabelsKeys(style, alphabet, i, n);
  }

  /** Every template position named is below k and holds at least one residue. */
  predicate KeysOccupied(keys: seq<int>, counts: seq<nat>, k: nat) {
    forall a :: 0 <= a < |keys| && keys[a] >= 0 ==> keys[a] < k && keys[a] < |counts| && counts[keys[a]] > 0
  }

  /** Template positions appear in strictly increasing order; -1 entries are ignored. */
  predicate KeysAscending(keys: seq<int>) {
    forall a, b :: 0 <= a < b < |keys| && keys[a] >= 0 && keys[b] >= 0 ==> keys[a] < keys[b]
  }

  /**
    The assembled labels name positions in increasing order, and only
    positions below `k` that hold at least one residue.
  */
  lemma {:induction false} AssembleKeys(plan: LabelPlan, counts: seq<nat>, k: nat)
    requires k <= |counts|
    ensures KeysAscending(Keys(Assemble(plan, counts, k).labels))
    ensures KeysOccupied(Keys(Assemble(plan, counts, k).labels), counts, k)
  {
    if k > 0 {
      AssembleKeys(plan, counts, k - 1);
      var prev := Assemble(plan, counts, k - 1);
      var n := counts[k - 1];
      if !prev.overflow && 0 < n <= InsertionLimit(plan) {
        var style := StyleAt(plan, k - 1);
        var added := PositionLabels(style, plan.alphabet, k - 1, n);
        PositionLabelsKeys(style, plan.alphabet, k - 1, n);
        KeysAppend(prev.labels, added);
        assert Assemble(plan, counts, k).labels == prev.labels + added;
        AnchorKeysAppended(Keys(prev.labels), Keys(added), style, n, counts, k - 1);
      }
    }
  }

  /** Appending keys that name only position m, after keys below m, keeps them ascending and below m + 1. */
  lemma AnchorKeysAppended(before: seq<int>, addedKeys: seq<int>, style: Style, n: nat, counts: seq<nat>, m: nat)
    requires m < |counts| && counts[m] > 0 && n >= 1
    requires KeysAscending(before) && KeysOccupied(before, counts, m)
    requires addedKeys == if style == SplitBefore then NoKeys(n - 1) + [m] else [m] + NoKeys(n - 1)
    ensures KeysAscending(before + addedKeys) && KeysOccupied(before + addedKeys, counts, m + 1)
  {
    OnlyAnchorKeyed(addedKeys, style, n, m);
    var keys := before + addedKeys;
    forall a, b | 0 <= a < b < |keys| && keys[a] >= 0 && keys[b] >= 0
      ensures keys[a] < keys[b]
    {
      if b < |before| {
        assert keys[a] == before[a] && keys[b] == before[b];
      } else if a < |before| {
        assert keys[a] == before[a] && keys[b] == addedKeys[b - |before|];
      } else {
        assert keys[a] == addedKeys[a - |before|] && keys[b] == addedKeys[b - |before|];
      }
    }
    forall a | 0 <= a < |keys| && keys[a] >= 0
      ensures keys[a] < m + 1 && counts[keys[a]] > 0
    {
      if a < |before| {
        assert keys[a] == before[a];
      } else {
        assert keys[a] == addedKeys[a - |before|];
      }
    }
  }

  lemma OnlyAnchorKeyed(ks: seq<int>, style: Style, n: nat, i: nat)
    requires n >= 1
    requires ks == if style == SplitBefore then NoKeys(n - 1) + [i] else [i] + NoKeys(n - 1)
    ensures |ks| == n
    ensures forall a :: 0 <= a < n && ks[a] >= 0 ==> a == Anchor(style, n) && ks[a] == i
  {
  }

  // ---------------------------------------------------------------------
  // Percent identity
  // ---------------------------------------------------------------------

  /** The number of restricted positions (those with a non-empty consensus set) among the first `hi`. */
  function CountRestricted(consensus: seq<set<char>>, hi: nat): nat
    requires hi <= |consensus|
  {
    if hi == 0 then 0 else CountRestricted(consensus, hi - 1) + (if consensus[hi - 1] != {} then 1 else 0)
  }

  lemma {:induction false} CountRestrictedMonotone(consensus: seq<set<char>>, lo: nat, hi: nat)
    requires lo <= hi <= |consensus|
    ensures CountRestricted(consensus, lo) <= CountRestricted(consensus, hi)
    decreases hi - lo
  {
    if lo < hi {
      CountRestrictedMonotone(consensus, lo, hi - 1);
    }
  }

  predicate KeysBelow(keys: seq<int>, n: nat) {
    forall k :: 0 <= k < |keys| ==> keys[k] < n
  }

  /** Entry k puts the query residue on a restricted position whose consensus set holds it. */
  predicate Hit(query: string, keys: seq<int>, consensus: seq<set<char>>, k: nat)
    requires |keys| <= |query| && KeysBelow(keys, |consensus|) && k < |keys|
  {
    keys[k] >= 0 && consensus[keys[k]] != {} && query[k] in consensus[keys[k]]
  }

  function Matches(query: string, keys: seq<int>, consensus: seq<set<char>>): nat
    requires |keys| <= |query| && KeysBelow(keys, |consensus|)
  {
    if keys == [] then 0
    else Matches(query, keys[..|keys| - 1], consensus) + (if Hit(query, keys, consensus, |keys| - 1) then 1 else 0)
  }

  function ConservedMatches(query: string, keys: seq<int>, consensus: seq<set<char>>, conserved: seq<int>): nat
    requires |keys| <= |query| && KeysBelow(keys, |consensus|)
  {
    if keys == [] then 0
    else
      ConservedMatches(query, keys[..|keys| - 1], consensus, conserved)
      + (if Hit(query, keys, consensus, |keys| - 1) && keys[|keys| - 1] in conserved then 1 else 0)
  }

  lemma {:induction false} ConservedAmongMatches(query: string, keys: seq<int>, consensus: seq<set<char>>, conserved: seq<int>)
    requires |keys| <= |query| && KeysBelow(keys, |consensus|)
    ensures ConservedMatches(query, keys, consensus, conserved) <= Matches(query, keys, consensus)
  {
    if keys != [] {
      var init := keys[..|keys| - 1];
      ConservedAmongMatches(query, init, consensus, conserved);
    }
  }

  /**
    When the keys name each position at most once, in increasing order, the
    matches cannot outnumber the restricted positions below `hi`.
  */
  lemma {:induction false} MatchesAtMostRestricted(query: string, keys: seq<int>, consensus: seq<set<char>>, hi: nat)
    requires |keys| <= |query| && hi <= |consensus| && KeysBelow(keys, hi)
    requires KeysAscending(keys)
    ensures Matches(query, keys, consensus) <= CountRestricted(consensus, hi)
    decreases |keys|
  {
    if keys != [] {
      var init := keys[..|keys| - 1];
      var last := keys[|keys| - 1];
      if last < 0 {
        MatchesAtMostRestricted(query, init, consensus, hi);
      } else {
        assert forall a :: 0 <= a < |init| && init[a] >= 0 ==> init[a] < last;
        assert KeysBelow(init, last) by {
          forall a | 0 <= a < |init|
            ensures init[a] < last
          {
            if init[a] >= 0 {
              assert keys[a] < keys[|keys| - 1];
            }
          }
        }
        MatchesAtMostRestricted(query, init, consensus, last);
        CountRestrictedMonotone(consensus, last + 1, hi);
      }
    }
  }
}
