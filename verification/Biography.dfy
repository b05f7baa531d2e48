/** Lag, drag and void: what a closure's whole life says about each census, and the signed
    per-era entries from which the profiler reconstructs it (rts/ProfHeap.c). */
module Biography {

  /** A closure's life in eras. `first`, `last` and `died` are 0 while there was no use and no
      death. Census t is taken at the end of era t, so a closure that dies in era e has already
      gone when census e is taken. */
  datatype Life = Life(size: nat, prim: bool, selected: bool, id: nat,
                       born: nat, first: nat, last: nat, died: nat)

  predicate Orderly(l: Life, era: nat) {
    && 1 <= l.born <= era
    && (l.first == 0 <==> l.last == 0)
    && (l.first != 0 ==> l.born <= l.first <= l.last <= era)
    && (l.died != 0 ==> l.born <= l.died <= era && l.last <= l.died)
  }

  predicate LiveAt(l: Life, t: nat) {
    l.born <= t && (l.died == 0 || t < l.died)
  }

  predicate UsedBy(l: Life, t: nat) {
    0 < l.first <= t
  }

  /** The closures a figure is about: all that satisfy the selectors, or those of one identity. */
  datatype Band = Everything | Only(id: nat)

  predicate InBand(l: Life, b: Band) {
    l.selected && (b.Everything? || b.id == l.id)
  }

  /** What one closure adds to a figure: its words if it is alive at the census and in the state
      the figure counts. */
  datatype Measure = Live | Prim | NotUsed | Used | Void | Lag | Use | Drag | VoidStep | DragStep

  function Words(m: Measure, l: Life, t: nat): int {
    match m
    case Live => if LiveAt(l, t) then l.size else 0
    case Prim => if l.prim && LiveAt(l, t) then l.size else 0
    case NotUsed => if !l.prim && LiveAt(l, t) && !UsedBy(l, t) then l.size else 0
    case Used => if !l.prim && LiveAt(l, t) && UsedBy(l, t) then l.size else 0
    case Void => if !l.prim && LiveAt(l, t) && l.first == 0 then l.size else 0
    case Lag => if !l.prim && LiveAt(l, t) && t < l.first then l.size else 0
    case Use => if !l.prim && LiveAt(l, t) && 0 < l.first <= t <= l.last then l.size else 0
    case Drag => if !l.prim && LiveAt(l, t) && l.first != 0 && l.last < t then l.size else 0
    case VoidStep => if l.prim || l.died == 0 || l.first != 0 then 0 else Step(l.born, l.died, t, l.size)
    case DragStep => if l.prim || l.died == 0 || l.first == 0 then 0 else Step(l.last + 1, l.died, t, l.size)
  }

  /** The signed entries left by a death: +size in the era `from`, -size in the era of the death,
      nothing at all when no census lies between the two. */
  function Step(from: nat, died: nat, t: nat, size: int): int {
    if died <= from then 0
    else if t == from then size
    else if t == died then -size
    else 0
  }

  function Weight(m: Measure, l: Life, b: Band, t: nat): int {
    if InBand(l, b) then Words(m, l, t) else 0
  }

  function Sum(m: Measure, ls: seq<Life>, b: Band, t: nat): int {
    if ls == [] then 0 else Sum(m, ls[..|ls| - 1], b, t) + Weight(m, ls[|ls| - 1], b, t)
  }

  /** Adding up the entries of eras 1 to t. */
  function Running(m: Measure, ls: seq<Life>, b: Band, t: nat): int {
    if t == 0 then 0 else Running(m, ls, b, t - 1) + Sum(m, ls, b, t)
  }

  lemma SumOfOneMore(m: Measure, ls: seq<Life>, l: Life, b: Band, t: nat)
    ensures Sum(m, ls + [l], b, t) == Sum(m, ls, b, t) + Weight(m, l, b, t)
  {
    assert (ls + [l])[..|ls|] == ls;
  }

  lemma {:induction false} SumOfChanged(m: Measure, ls: seq<Life>, i: nat, l: Life, b: Band, t: nat)
    requires i < |ls|
    ensures Sum(m, ls[i := l], b, t) == Sum(m, ls, b, t) - Weight(m, ls[i], b, t) + Weight(m, l, b, t)
    decreases |ls|
  {
    var n := |ls| - 1;
    if i == n {
      assert ls[i := l][..n] == ls[..n];
    } else {
      assert ls[i := l][..n] == ls[..n][i := l];
      SumOfChanged(m, ls[..n], i, l, b, t);
    }
  }

  /** If one figure is the difference of two others closure by closure, it is so in total. */
  lemma {:induction false} SumIsLinear(m: Measure, p: Measure, q: Measure, ls: seq<Life>, b: Band, s: nat, t: nat)
    requires forall l <- ls :: Weight(m, l, b, t) == Weight(p, l, b, s) + Weight(q, l, b, t)
    ensures Sum(m, ls, b, t) == Sum(p, ls, b, s) + Sum(q, ls, b, t)
  {
    if ls != [] {
      SumIsLinear(m, p, q, ls[..|ls| - 1], b, s, t);
    }
  }

  lemma {:induction false} SumIsMonotone(p: Measure, q: Measure, ls: seq<Life>, b: Band, t: nat)
    requires forall l <- ls :: Weight(p, l, b, t) <= Weight(q, l, b, t)
    ensures Sum(p, ls, b, t) <= Sum(q, ls, b, t)
    ensures Sum(p, ls, b, t) < Sum(q, ls, b, t) <==>
            exists i :: 0 <= i < |ls| && Weight(p, ls[i], b, t) < Weight(q, ls[i], b, t)
  {
    if ls != [] {
      var n := |ls| - 1;
      SumIsMonotone(p, q, ls[..n], b, t);
      if i :| 0 <= i < |ls| && Weight(p, ls[i], b, t) < Weight(q, ls[i], b, t) {
        assert i < n ==> ls[..n][i] == ls[i];
      }
      if i :| 0 <= i < n && Weight(p, ls[..n][i], b, t) < Weight(q, ls[..n][i], b, t) {
        assert ls[i] == ls[..n][i];
      }
    }
  }

  lemma {:induction false} SumIsNatural(m: Measure, ls: seq<Life>, b: Band, t: nat)
    requires m != VoidStep && m != DragStep
    ensures Sum(m, ls, b, t) >= 0
  {
    if ls != [] {
      SumIsNatural(m, ls[..|ls| - 1], b, t);
    }
  }

  lemma {:induction false} NothingAtTheStart(m: Measure, ls: seq<Life>, b: Band, era: nat)
    requires m != VoidStep && m != DragStep
    requires forall l <- ls :: Orderly(l, era)
    ensures Sum(m, ls, b, 0) == 0
  {
    if ls != [] {
      assert ls[|ls| - 1] in ls;
      NothingAtTheStart(m, ls[..|ls| - 1], b, era);
    }
  }

  /** Once every ordinary closure has died, adding up the signed entries of eras 1 to t gives the
      words alive at census t that are never used, and those whose last use is past. */
  lemma {:induction false} EntriesAddUp(ls: seq<Life>, b: Band, t: nat, era: nat)
    requires forall l <- ls :: Orderly(l, era)
    requires forall l <- ls :: l.died != 0 || l.prim
    ensures Running(VoidStep, ls, b, t) == Sum(Void, ls, b, t)
    ensures Running(DragStep, ls, b, t) == Sum(Drag, ls, b, t)
  {
    if t == 0 {
      NothingAtTheStart(Void, ls, b, era);
      NothingAtTheStart(Drag, ls, b, era);
    } else {
      EntriesAddUp(ls, b, t - 1, era);
      SumIsLinear(Void, Void, VoidStep, ls, b, t - 1, t);
      SumIsLinear(Drag, Drag, DragStep, ls, b, t - 1, t);
    }
  }

  /** The figures printed for a census: VOID and DRAG are the running totals, LAG and USE what is
      left of the unused and used words, INHERENT_USE the primitive words. They are the words
      never used, used only later, used now or later again, and last used before the census; none
      is negative and together they are the live words. */
  lemma ReportIsBiography(ls: seq<Life>, b: Band, t: nat, era: nat)
    requires forall l <- ls :: Orderly(l, era)
    requires forall l <- ls :: l.died != 0 || l.prim
    ensures Running(VoidStep, ls, b, t) == Sum(Void, ls, b, t) >= 0
    ensures Sum(NotUsed, ls, b, t) - Running(VoidStep, ls, b, t) == Sum(Lag, ls, b, t) >= 0
    ensures Sum(Used, ls, b, t) - Running(DragStep, ls, b, t) == Sum(Use, ls, b, t) >= 0
    ensures Running(DragStep, ls, b, t) == Sum(Drag, ls, b, t) >= 0
    ensures Sum(Void, ls, b, t) + Sum(Lag, ls, b, t) + Sum(Use, ls, b, t) + Sum(Drag, ls, b, t)
            + Sum(Prim, ls, b, t) == Sum(Live, ls, b, t)
  {
    EntriesAddUp(ls, b, t, era);
    SumIsLinear(NotUsed, Lag, Void, ls, b, t, t);
    SumIsLinear(Used, Use, Drag, ls, b, t, t);
    FourStates(ls, b, t);
    SumIsNatural(Void, ls, b, t);
    SumIsNatural(Lag, ls, b, t);
    SumIsNatural(Use, ls, b, t);
    SumIsNatural(Drag, ls, b, t);
  }

  lemma {:induction false} FourStates(ls: seq<Life>, b: Band, t: nat)
    requires forall l <- ls :: (l.first == 0 <==> l.last == 0) && l.first <= l.last
    ensures Sum(Void, ls, b, t) + Sum(Lag, ls, b, t) + Sum(Use, ls, b, t) + Sum(Drag, ls, b, t)
            + Sum(Prim, ls, b, t) == Sum(Live, ls, b, t)
  {
    if ls != [] {
      FourStates(ls[..|ls| - 1], b, t);
    }
  }

  /** A closure whose words are among the unused ones of census t but not, or no longer, among the void
      entries of era t: it is older than that, or may still be used or has been; or it died unused in
      era t and has left its words there as a negative entry. */
  predicate LeavesSlack(l: Life, b: Band, t: nat) {
    && InBand(l, b) && !l.prim && l.size > 0
    && ((LiveAt(l, t) && !UsedBy(l, t) && (l.born < t || l.died == 0 || l.first != 0))
        || (l.died == t && l.born < t && l.first == 0))
  }

  /** While the program runs, an era's void entry never exceeds the unused words counted at its
      census, and it is less exactly if some closure leaves slack. */
  lemma VoidEntryBound(ls: seq<Life>, b: Band, t: nat, era: nat)
    requires forall l <- ls :: Orderly(l, era)
    ensures Sum(VoidStep, ls, b, t) <= Sum(NotUsed, ls, b, t)
    ensures Sum(VoidStep, ls, b, t) < Sum(NotUsed, ls, b, t) <==> exists l :: l in ls && LeavesSlack(l, b, t)
  {
    SumIsMonotone(VoidStep, NotUsed, ls, b, t);
    forall l | l in ls
      ensures LeavesSlack(l, b, t) <==> Weight(VoidStep, l, b, t) < Weight(NotUsed, l, b, t)
    {
      assert Orderly(l, era);
    }
    if l :| l in ls && LeavesSlack(l, b, t) {
      var i :| 0 <= i < |ls| && ls[i] == l;
      assert Weight(VoidStep, ls[i], b, t) < Weight(NotUsed, ls[i], b, t);
    }
  }
}
