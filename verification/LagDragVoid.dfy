/** The heap profiler's biographical counters (rts/ProfHeap.c, rts/LdvProfile.c): the LDV word of
    a closure, the censuses, the signed entries of LDV_recordDead and their aggregation. */
module LagDragVoid {
  import opened Biography

  const LDV_SHIFT_POWER: nat := 0x4000_0000
  const LDV_STATE_USE: nat := 0x1000_0000_0000_0000
  const MAX_ERA: nat := LDV_SHIFT_POWER
  const PROF_HEADER_WORDS := 2

  // The three fields of an LDV word: a state bit, 30 bits of creation era, 30 bits of last use.

  function CreatedIn(w: nat): nat { w / LDV_SHIFT_POWER % LDV_SHIFT_POWER }

  predicate InStateUse(w: nat) { w / LDV_STATE_USE % 2 == 1 }

  function LastUsedIn(w: nat): nat { w % LDV_SHIFT_POWER }

  function RecordCreate(era: nat): (w: nat)
    requires era < MAX_ERA
    ensures CreatedIn(w) == era && !InStateUse(w)
  {
    era * LDV_SHIFT_POWER
  }

  function RecordUse(w: nat, era: nat): (v: nat)
    requires era < MAX_ERA
    ensures CreatedIn(v) == CreatedIn(w) && InStateUse(v) && LastUsedIn(v) == era
  {
    CreatedIn(w) * LDV_SHIFT_POWER + era + LDV_STATE_USE
  }

  datatype Closure = Closure(words: nat, prim: bool, selected: bool, id: nat, ldvw: nat)

  datatype Counter = Counter(prim: int, notUsed: int, used: int, voidTotal: int, dragTotal: int)

  const ZERO := Counter(0, 0, 0, 0, 0)

  function Plus(c: Counter, d: Counter): Counter {
    Counter(c.prim + d.prim, c.notUsed + d.notUsed, c.used + d.used,
            c.voidTotal + d.voidTotal, c.dragTotal + d.dragTotal)
  }

  /** One census: the plain totals, and a counter for each closure identity, listed newest first. */
  datatype Census = Census(totals: Counter, hash: map<nat, Counter>, ctrs: seq<nat>)

  const NO_CENSUS := Census(ZERO, map[], [])

  function Lookup(hash: map<nat, Counter>, id: nat): Counter {
    if id in hash then hash[id] else ZERO
  }

  function Figure(c: Census, b: Band): Counter {
    match b
    case Everything => c.totals
    case Only(id) => Lookup(c.hash, id)
  }

  ghost predicate Listed(hash: map<nat, Counter>, ctrs: seq<nat>) {
    && (forall id :: id in hash <==> id in ctrs)
    && (forall i, j :: 0 <= i < j < |ctrs| ==> ctrs[i] != ctrs[j])
  }

  /** What a census should hold: the words counted when it was taken and the entries of deaths. */
  function Expected(ls: seq<Life>, b: Band, t: nat, taken: bool): Counter {
    Counter(if taken then Sum(Prim, ls, b, t) else 0,
            if taken then Sum(NotUsed, ls, b, t) else 0,
            if taken then Sum(Used, ls, b, t) else 0,
            Sum(VoidStep, ls, b, t), Sum(DragStep, ls, b, t))
  }

  predicate InMode(b: Band, selecting: bool) {
    b.Only? <==> selecting
  }

  ghost predicate Recorded(c: Census, ls: seq<Life>, t: nat, taken: bool, selecting: bool) {
    && (forall b {:trigger Figure(c, b)} | InMode(b, selecting) :: Figure(c, b) == Expected(ls, b, t, taken))
    && Listed(c.hash, c.ctrs)
    && (selecting && taken ==> forall l <- ls :: l.selected && LiveAt(l, t) ==> l.id in c.hash)
  }

  /** A closure of the heap and the life it has led. */
  predicate Matches(c: Closure, live: bool, l: Life, era: nat) {
    && c.words == l.size + PROF_HEADER_WORDS
    && c.prim == l.prim && c.selected == l.selected && c.id == l.id
    && Orderly(l, era) && (live <==> l.died == 0)
    && CreatedIn(c.ldvw) == l.born
    && (InStateUse(c.ldvw) <==> l.first != 0)
    && (l.first != 0 ==> LastUsedIn(c.ldvw) == l.last)
  }

  function Touched(l: Life, era: nat): Life {
    l.(first := if l.first == 0 then era else l.first, last := era)
  }

  function Buried(l: Life, era: nat): Life {
    l.(died := era)
  }

  function NewLife(words: nat, prim: bool, selected: bool, id: nat, era: nat): Life
    requires words >= PROF_HEADER_WORDS
  {
    Life(words - PROF_HEADER_WORDS, prim, selected, id, era, 0, 0, 0)
  }

  /** What the death of a closure adds to the entries of era t. */
  function DeathEntry(l: Life, b: Band, era: nat, t: nat): Counter {
    Counter(0, 0, 0, Weight(VoidStep, Buried(l, era), b, t), Weight(DragStep, Buried(l, era), b, t))
  }

  lemma UseKeepsRecord(ls: seq<Life>, i: nat, b: Band, t: nat, era: nat)
    requires i < |ls| && ls[i].died == 0 && Orderly(ls[i], era) && t <= era
    ensures Expected(ls[i := Touched(ls[i], era)], b, t, t < era) == Expected(ls, b, t, t < era)
  {
    forall m: Measure ensures Sum(m, ls[i := Touched(ls[i], era)], b, t)
        == Sum(m, ls, b, t) - Weight(m, ls[i], b, t) + Weight(m, Touched(ls[i], era), b, t)
    {
      SumOfChanged(m, ls, i, Touched(ls[i], era), b, t);
    }
  }

  lemma BirthKeepsRecord(ls: seq<Life>, l: Life, b: Band, t: nat, era: nat)
    requires l.died == 0 && l.born == era && t <= era
    ensures Expected(ls + [l], b, t, t < era) == Expected(ls, b, t, t < era)
  {
    forall m: Measure ensures Sum(m, ls + [l], b, t) == Sum(m, ls, b, t) + Weight(m, l, b, t) {
      SumOfOneMore(m, ls, l, b, t);
    }
  }

  lemma DeathAddsEntry(ls: seq<Life>, i: nat, b: Band, t: nat, era: nat)
    requires i < |ls| && ls[i].died == 0 && Orderly(ls[i], era) && t <= era
    ensures Expected(ls[i := Buried(ls[i], era)], b, t, t < era)
         == Plus(Expected(ls, b, t, t < era), DeathEntry(ls[i], b, era, t))
  {
    forall m: Measure ensures Sum(m, ls[i := Buried(ls[i], era)], b, t)
        == Sum(m, ls, b, t) - Weight(m, ls[i], b, t) + Weight(m, Buried(ls[i], era), b, t)
    {
      SumOfChanged(m, ls, i, Buried(ls[i], era), b, t);
    }
  }

  lemma {:induction false} NothingYet(ls: seq<Life>, b: Band, t: nat, era: nat)
    requires forall l <- ls :: Orderly(l, era)
    requires era < t
    ensures Sum(VoidStep, ls, b, t) == 0 && Sum(DragStep, ls, b, t) == 0
  {
    if ls != [] {
      assert ls[|ls| - 1] in ls;
      NothingYet(ls[..|ls| - 1], b, t, era);
    }
  }

  /** An identity without a counter in a taken census has no words there and no entries. */
  lemma AbsentIsZero(c: Census, ls: seq<Life>, t: nat, era: nat, id: nat)
    requires Recorded(c, ls, t, true, true) && id !in c.hash
    requires forall l <- ls :: Orderly(l, era)
    requires forall l <- ls :: l.died != 0 || l.prim
    ensures Running(VoidStep, ls, Only(id), t) == 0 && Running(DragStep, ls, Only(id), t) == 0
  {
    assert Figure(c, Only(id)) == ZERO;
    ReportIsBiography(ls, Only(id), t, era);
  }

  // The three events leave a census's record right.

  lemma UseKeepsCensus(c: Census, ls: seq<Life>, i: nat, t: nat, era: nat, selecting: bool)
    requires i < |ls| && ls[i].died == 0 && Orderly(ls[i], era) && t <= era
    requires Recorded(c, ls, t, t < era, selecting)
    ensures Recorded(c, ls[i := Touched(ls[i], era)], t, t < era, selecting)
  {
    hide Expected, Figure, Listed;
    var taken := t < era;
    forall b {:trigger Expected(ls, b, t, taken)}
      ensures Expected(ls[i := Touched(ls[i], era)], b, t, taken) == Expected(ls, b, t, taken)
    {
      UseKeepsRecord(ls, i, b, t, era);
    }
  }

  lemma BirthKeepsCensus(c: Census, ls: seq<Life>, l: Life, t: nat, era: nat, selecting: bool)
    requires l.died == 0 && l.born == era && t <= era
    requires Recorded(c, ls, t, t < era, selecting)
    ensures Recorded(c, ls + [l], t, t < era, selecting)
  {
    hide Expected, Figure, Listed;
    var taken := t < era;
    forall b {:trigger Expected(ls, b, t, taken)}
      ensures Expected(ls + [l], b, t, taken) == Expected(ls, b, t, taken)
    {
      BirthKeepsRecord(ls, l, b, t, era);
    }
  }

  /** A counter of one identity changed, or a fresh one put at the front of the list. */
  function AddTo(c: Census, selecting: bool, id: nat, d: Counter): Census {
    if !selecting then c.(totals := Plus(c.totals, d))
    else if id in c.hash then c.(hash := c.hash[id := Plus(c.hash[id], d)])
    else c.(hash := c.hash[id := d], ctrs := [id] + c.ctrs)
  }

  lemma AddedFigure(c: Census, selecting: bool, id: nat, d: Counter, b: Band)
    requires InMode(b, selecting)
    ensures Figure(AddTo(c, selecting, id, d), b)
         == Plus(Figure(c, b), if b.Everything? || b.id == id then d else ZERO)
  {
    hide Plus;
    if selecting && id !in c.hash && b.id == id {
      PlusZero(d);
    } else if selecting && b.id != id {
      PlusZero(Lookup(c.hash, b.id));
    }
  }

  lemma PlusZero(c: Counter)
    ensures Plus(c, ZERO) == c && Plus(ZERO, c) == c
  {
  }

  lemma AddedListed(c: Census, selecting: bool, id: nat, d: Counter)
    requires Listed(c.hash, c.ctrs)
    ensures Listed(AddTo(c, selecting, id, d).hash, AddTo(c, selecting, id, d).ctrs)
  {
  }

  /** Where a closure that dies now starts to count as void, or as dragged. */
  function DeadSince(l: Life): nat {
    if l.first == 0 then l.born else l.last + 1
  }

  function Entry(l: Life, words: int): Counter {
    if l.first == 0 then Counter(0, 0, 0, words, 0) else Counter(0, 0, 0, 0, words)
  }

  /** The census of era t after the death of l: its words join the entry of the era since which it
      was dead weight and leave that of the current era, if a census lies in between. */
  function AfterDeath(c: Census, l: Life, t: nat, era: nat, selecting: bool): Census {
    if !l.selected || l.prim || DeadSince(l) >= era then c
    else if t == DeadSince(l) then AddTo(c, selecting, l.id, Entry(l, l.size))
    else if t == era then AddTo(c, selecting, l.id, Entry(l, 0 - l.size))
    else c
  }

  lemma AfterDeathFigure(c: Census, l: Life, t: nat, era: nat, selecting: bool, b: Band)
    requires InMode(b, selecting) && l.died == 0 && Orderly(l, era)
    ensures Figure(AfterDeath(c, l, t, era, selecting), b) == Plus(Figure(c, b), DeathEntry(l, b, era, t))
  {
    hide Figure, AddTo, Plus;
    AddedFigure(c, selecting, l.id, Entry(l, l.size), b);
    AddedFigure(c, selecting, l.id, Entry(l, 0 - l.size), b);
    PlusZero(Figure(c, b));
  }

  lemma DeathKeepsCensus(c: Census, ls: seq<Life>, i: nat, t: nat, era: nat, selecting: bool)
    requires i < |ls| && ls[i].died == 0 && Orderly(ls[i], era) && t <= era
    requires Recorded(c, ls, t, t < era, selecting)
    ensures Recorded(AfterDeath(c, ls[i], t, era, selecting), ls[i := Buried(ls[i], era)], t, t < era, selecting)
  {
    hide Expected, Figure, Plus, DeathEntry, AfterDeath, Buried, Listed;
    var taken := t < era;
    var d := AfterDeath(c, ls[i], t, era, selecting);
    forall b {:trigger Figure(d, b)} | InMode(b, selecting)
      ensures Figure(d, b) == Expected(ls[i := Buried(ls[i], era)], b, t, taken)
    {
      AfterDeathFigure(c, ls[i], t, era, selecting, b);
      DeathAddsEntry(ls, i, b, t, era);
      assert Figure(c, b) == Expected(ls, b, t, taken);
    }
    DeathKeepsListed(c, ls[i], t, era, selecting);
    BuriedLater(ls, i, t, era);
  }

  lemma DeathKeepsListed(c: Census, l: Life, t: nat, era: nat, selecting: bool)
    requires Listed(c.hash, c.ctrs)
    ensures var d := AfterDeath(c, l, t, era, selecting); Listed(d.hash, d.ctrs)
    ensures forall id :: id in c.hash ==> id in AfterDeath(c, l, t, era, selecting).hash
  {
    AddedListed(c, selecting, l.id, Entry(l, l.size));
    AddedListed(c, selecting, l.id, Entry(l, 0 - l.size));
    hide Listed;
  }

  /** Who is alive at a census after somebody died was so before, and is known by the same identity. */
  lemma BuriedLater(ls: seq<Life>, i: nat, t: nat, era: nat)
    requires i < |ls| && ls[i].died == 0
    ensures forall l <- ls[i := Buried(ls[i], era)] :: l.selected && LiveAt(l, t) ==>
              exists k :: k in ls && k.selected && LiveAt(k, t) && k.id == l.id
  {
    forall l | l in ls[i := Buried(ls[i], era)] && l.selected && LiveAt(l, t)
      ensures exists k :: k in ls && k.selected && LiveAt(k, t) && k.id == l.id
    {
      var j :| 0 <= j < |ls| && ls[i := Buried(ls[i], era)][j] == l;
      assert ls[j] in ls;
    }
  }

  /** The census being taken in era t, with the first n closures counted. */
  function Partly(ls: seq<Life>, n: nat, b: Band, t: nat): Counter
    requires n <= |ls|
  {
    Counter(Sum(Prim, ls[..n], b, t), Sum(NotUsed, ls[..n], b, t), Sum(Used, ls[..n], b, t),
            Sum(VoidStep, ls, b, t), Sum(DragStep, ls, b, t))
  }

  ghost predicate PartlyTaken(c: Census, ls: seq<Life>, n: nat, t: nat, selecting: bool)
    requires n <= |ls|
  {
    && (forall b {:trigger Figure(c, b)} | InMode(b, selecting) :: Figure(c, b) == Partly(ls, n, b, t))
    && Listed(c.hash, c.ctrs)
    && (selecting ==> forall l <- ls[..n] :: l.selected && LiveAt(l, t) ==> l.id in c.hash)
  }

  function Counted(prim: bool, used: bool, words: int): Counter {
    if prim then Counter(words, 0, 0, 0, 0)
    else if used then Counter(0, 0, words, 0, 0)
    else Counter(0, words, 0, 0, 0)
  }

  function AfterCount(c: Census, l: Life, selecting: bool): Census {
    if l.died == 0 && l.selected then AddTo(c, selecting, l.id, Counted(l.prim, l.first != 0, l.size)) else c
  }

  lemma PartlyGrows(ls: seq<Life>, n: nat, b: Band, t: nat)
    requires n < |ls| && Orderly(ls[n], t)
    ensures Partly(ls, n + 1, b, t) == Plus(Partly(ls, n, b, t),
              if ls[n].died == 0 && InBand(ls[n], b) then Counted(ls[n].prim, ls[n].first != 0, ls[n].size) else ZERO)
  {
    assert ls[..n + 1] == ls[..n] + [ls[n]];
    SumOfOneMore(Prim, ls[..n], ls[n], b, t);
    SumOfOneMore(NotUsed, ls[..n], ls[n], b, t);
    SumOfOneMore(Used, ls[..n], ls[n], b, t);
  }

  lemma CountingKeeps(c: Census, ls: seq<Life>, n: nat, t: nat, selecting: bool)
    requires n < |ls| && Orderly(ls[n], t)
    requires PartlyTaken(c, ls, n, t, selecting)
    ensures PartlyTaken(AfterCount(c, ls[n], selecting), ls, n + 1, t, selecting)
  {
    hide Partly, Figure, Plus, Counted, Sum;
    var l := ls[n];
    var d := AfterCount(c, l, selecting);
    forall b {:trigger Figure(d, b)} | InMode(b, selecting)
      ensures Figure(d, b) == Partly(ls, n + 1, b, t)
    {
      AddedFigure(c, selecting, l.id, Counted(l.prim, l.first != 0, l.size), b);
      PartlyGrows(ls, n, b, t);
      PlusZero(Partly(ls, n, b, t));
      assert Figure(c, b) == Partly(ls, n, b, t);
    }
    AddedListed(c, selecting, l.id, Counted(l.prim, l.first != 0, l.size));
    assert ls[..n + 1] == ls[..n] + [l];
  }

  lemma FirstAndLastCount(c: Census, ls: seq<Life>, t: nat, selecting: bool)
    requires 1 <= t && forall l <- ls :: Orderly(l, t)
    ensures Recorded(c, ls, t, false, selecting) ==> PartlyTaken(c, ls, 0, t, selecting)
    ensures PartlyTaken(c, ls, |ls|, t, selecting) ==> Recorded(c, ls, t, true, selecting)
  {
    assert ls[..|ls|] == ls;
    forall b ensures Expected(ls, b, t, true) == Partly(ls, |ls|, b, t) {}
    forall b ensures Expected(ls, b, t, false) == Partly(ls, 0, b, t) {}
  }

  lemma FreshCensus(ls: seq<Life>, t: nat, era: nat, selecting: bool)
    requires forall l <- ls :: Orderly(l, era)
    requires era < t
    ensures Recorded(NO_CENSUS, ls, t, false, selecting)
  {
    forall b {:trigger Figure(NO_CENSUS, b)} ensures Figure(NO_CENSUS, b) == Expected(ls, b, t, false) {
      NothingYet(ls, b, t, era);
    }
  }

  predicate AllDead(ls: seq<Life>) {
    forall l <- ls :: l.died != 0 || l.prim
  }

  /** What an aggregated census should hold: running totals instead of entries. */
  function Final(ls: seq<Life>, b: Band, t: nat): Counter {
    Counter(Sum(Prim, ls, b, t), Sum(NotUsed, ls, b, t), Sum(Used, ls, b, t),
            Running(VoidStep, ls, b, t), Running(DragStep, ls, b, t))
  }

  ghost predicate Aggregated(c: Census, ls: seq<Life>, t: nat, selecting: bool) {
    && (forall b {:trigger Figure(c, b)} | InMode(b, selecting) :: Figure(c, b) == Final(ls, b, t))
    && Listed(c.hash, c.ctrs)
  }

  function Carried(d: Counter, c: Counter): Counter {
    d.(voidTotal := d.voidTotal + c.voidTotal, dragTotal := d.dragTotal + c.dragTotal)
  }

  /** d is c with the accumulated totals added, r the accumulated counters brought up to d. */
  ghost predicate CarriedInto(c: Census, d: Census, acc: map<nat, Counter>, r: map<nat, Counter>) {
    && d.ctrs == c.ctrs && d.hash.Keys == c.hash.Keys && r.Keys == acc.Keys
    && (forall id | id in c.hash :: d.hash[id] == if id in acc then Carried(c.hash[id], acc[id]) else c.hash[id])
    && (forall id | id in acc ::
          r[id] == if id in c.hash then WithTotals(acc[id], Carried(c.hash[id], acc[id])) else acc[id])
  }

  /** The same with only the first k identities of the list carried over. */
  ghost predicate CarriedSome(c: Census, d: Census, acc: map<nat, Counter>, r: map<nat, Counter>, some: seq<nat>) {
    && d.ctrs == c.ctrs && d.hash.Keys == c.hash.Keys && r.Keys == acc.Keys
    && (forall id | id in some :: id in acc)
    && (forall id | id in c.hash :: d.hash[id] == if id in some then Carried(c.hash[id], acc[id]) else c.hash[id])
    && (forall id | id in acc ::
          r[id] == if id in some && id in c.hash then WithTotals(acc[id], Carried(c.hash[id], acc[id])) else acc[id])
  }

  /** One counter and its accumulated counterpart, both brought up to date. */
  function CarryOne(d: Census, r: map<nat, Counter>, id: nat): (Census, map<nat, Counter>)
    requires id in r
  {
    if id in d.hash then
      var ctr := Carried(d.hash[id], r[id]);
      (d.(hash := d.hash[id := ctr]), r[id := WithTotals(r[id], ctr)])
    else (d, r)
  }

  lemma CarryOneMore(c: Census, d: Census, acc: map<nat, Counter>, r: map<nat, Counter>, ctrs: seq<nat>, k: nat)
    requires Listed(acc, ctrs) && k < |ctrs|
    requires CarriedSome(c, d, acc, r, ctrs[..k])
    ensures ctrs[k] in acc && ctrs[k] in r && r[ctrs[k]] == acc[ctrs[k]]
    ensures ctrs[k] in c.hash <==> ctrs[k] in d.hash
    ensures var (d', r') := CarryOne(d, r, ctrs[k]); CarriedSome(c, d', acc, r', ctrs[..k + 1])
  {
    hide Carried, WithTotals;
    assert ctrs[k] !in ctrs[..k];
    assert ctrs[..k + 1] == ctrs[..k] + [ctrs[k]];
  }

  /** r is acc with the identities of d that it did not have. */
  ghost predicate Joined(d: Census, acc: map<nat, Counter>, r: map<nat, Counter>) {
    && (forall id | id in acc :: id in r && r[id] == acc[id])
    && (forall id | id !in acc :: id in r <==> id in d.hash)
    && (forall id | id !in acc && id in d.hash :: r[id] == WithTotals(ZERO, d.hash[id]))
  }

  function WithTotals(c: Counter, d: Counter): Counter {
    c.(voidTotal := d.voidTotal, dragTotal := d.dragTotal)
  }

  /** The accumulated counters hold the running totals up to census t. */
  ghost predicate Accumulated(acc: map<nat, Counter>, ls: seq<Life>, t: nat) {
    forall id :: Lookup(acc, id).voidTotal == Running(VoidStep, ls, Only(id), t)
              && Lookup(acc, id).dragTotal == Running(DragStep, ls, Only(id), t)
  }

  /** An identity missing from a census has a zero running total there: the assertion of the
      aggregation loop. */
  lemma MissingIsZero(c: Census, acc: map<nat, Counter>, ls: seq<Life>, t: nat, era: nat, id: nat)
    requires 1 <= t && Recorded(c, ls, t, true, true) && id !in c.hash
    requires (forall l <- ls :: Orderly(l, era)) && AllDead(ls)
    requires Accumulated(acc, ls, t - 1)
    ensures Lookup(acc, id).voidTotal == 0 && Lookup(acc, id).dragTotal == 0
    ensures Running(VoidStep, ls, Only(id), t) == 0 && Running(DragStep, ls, Only(id), t) == 0
  {
    AbsentIsZero(c, ls, t, era, id);
    assert Figure(c, Only(id)) == Expected(ls, Only(id), t, true);
  }

  lemma SameKeysListed(acc: map<nat, Counter>, r: map<nat, Counter>, ctrs: seq<nat>)
    requires Listed(acc, ctrs) && r.Keys == acc.Keys
    ensures Listed(r, ctrs)
  {
    assert forall id :: id in r <==> id in r.Keys;
  }

  lemma CarriedRight(c: Census, d: Census, acc: map<nat, Counter>, r: map<nat, Counter>,
                     ls: seq<Life>, t: nat, era: nat)
    requires 1 <= t && Recorded(c, ls, t, true, true)
    requires (forall l <- ls :: Orderly(l, era)) && AllDead(ls)
    requires Accumulated(acc, ls, t - 1) && CarriedInto(c, d, acc, r)
    ensures Aggregated(d, ls, t, true)
  {
    assert Listed(d.hash, d.ctrs);
    hide Sum, Listed;
    forall b {:trigger Figure(d, b)} | InMode(b, true) ensures Figure(d, b) == Final(ls, b, t) {
      assert Figure(c, b) == Expected(ls, b, t, true);
      if b.id !in c.hash {
        MissingIsZero(c, acc, ls, t, era, b.id);
      }
    }
  }

  lemma AccumulatedNext(c: Census, d: Census, acc: map<nat, Counter>, r: map<nat, Counter>, r': map<nat, Counter>,
                        ls: seq<Life>, t: nat, era: nat)
    requires 1 <= t && Recorded(c, ls, t, true, true)
    requires (forall l <- ls :: Orderly(l, era)) && AllDead(ls)
    requires Accumulated(acc, ls, t - 1) && CarriedInto(c, d, acc, r) && Joined(d, r, r')
    ensures Accumulated(r', ls, t)
  {
    hide Sum, Listed;
    forall id
      ensures Lookup(r', id).voidTotal == Running(VoidStep, ls, Only(id), t)
      ensures Lookup(r', id).dragTotal == Running(DragStep, ls, Only(id), t)
    {
      assert Figure(c, Only(id)) == Expected(ls, Only(id), t, true);
      if id !in c.hash {
        MissingIsZero(c, acc, ls, t, era, id);
      }
    }
  }

  /** The five figures of a printed census, in words. */
  datatype Report = Report(void: int, lag: int, use: int, inherent: int, drag: int)

  function Printed(c: Counter): Report {
    Report(c.voidTotal, c.notUsed - c.voidTotal, c.used - c.dragTotal, c.prim, c.dragTotal)
  }

  /** What the figures should mean, closure by closure. */
  function BiographyAt(ls: seq<Life>, b: Band, t: nat): Report {
    Report(Sum(Void, ls, b, t), Sum(Lag, ls, b, t), Sum(Use, ls, b, t), Sum(Prim, ls, b, t), Sum(Drag, ls, b, t))
  }

  /** The figures are the live words in each state: never used, not yet used, in use, inherently used, and
      not used any more. */
  ghost predicate FiguresRight(r: Report, ls: seq<Life>, t: nat) {
    && r.void == Sum(Void, ls, Everything, t) >= 0 && r.lag == Sum(Lag, ls, Everything, t) >= 0
    && r.use == Sum(Use, ls, Everything, t) >= 0 && r.drag == Sum(Drag, ls, Everything, t) >= 0
    && r.inherent == Sum(Prim, ls, Everything, t)
    && r.void + r.lag + r.use + r.drag + r.inherent == Sum(Live, ls, Everything, t)
  }

  /** The biographies a profile by identity is restricted to. */
  datatype Selector = Selector(lag: bool, drag: bool, void: bool, use: bool)

  function Chosen(s: Selector, r: Report): int {
    (if s.lag then r.lag else 0) + (if s.drag then r.drag else 0)
    + (if s.void then r.void else 0) + (if s.use then r.use else 0)
  }

  datatype Line = Line(id: nat, words: int)

  /** At census t the closure is alive in one of the states selected; one that is inherently used is in
      none of them. */
  predicate InSelection(s: Selector, l: Life, t: nat) {
    && LiveAt(l, t) && !l.prim
    && (|| (s.void && l.first == 0)
        || (s.lag && l.first > t)
        || (s.use && 0 < l.first <= t <= l.last)
        || (s.drag && 0 < l.first && l.last < t))
  }

  /** The words of the closures of one identity in the states selected. */
  function SelectedWords(s: Selector, ls: seq<Life>, id: nat, t: nat): nat {
    if ls == [] then 0
    else
      var l := ls[|ls| - 1];
      SelectedWords(s, ls[..|ls| - 1], id, t) + if l.selected && l.id == id && InSelection(s, l, t) then l.size else 0
  }

  /** What the selection adds up is what the closures selected take. */
  lemma {:induction false} ChosenIsSelected(s: Selector, ls: seq<Life>, id: nat, t: nat, era: nat)
    requires forall l <- ls :: Orderly(l, era)
    ensures Chosen(s, BiographyAt(ls, Only(id), t)) == SelectedWords(s, ls, id, t)
  {
    if ls != [] {
      ChosenIsSelected(s, ls[..|ls| - 1], id, t, era);
      assert Orderly(ls[|ls| - 1], era);
    }
  }

  /** With one state selected its words are shown, with all four those of all closures but the inherently
      used ones. */
  lemma SelectionsMean(ls: seq<Life>, id: nat, t: nat, era: nat)
    requires forall l <- ls :: Orderly(l, era)
    ensures SelectedWords(Selector(true, false, false, false), ls, id, t) == Sum(Lag, ls, Only(id), t)
    ensures SelectedWords(Selector(false, true, false, false), ls, id, t) == Sum(Drag, ls, Only(id), t)
    ensures SelectedWords(Selector(false, false, true, false), ls, id, t) == Sum(Void, ls, Only(id), t)
    ensures SelectedWords(Selector(false, false, false, true), ls, id, t) == Sum(Use, ls, Only(id), t)
    ensures SelectedWords(Selector(true, true, true, true), ls, id, t) == Sum(Live, ls, Only(id), t) - Sum(Prim, ls, Only(id), t)
  {
    hide Sum, SelectedWords;
    ChosenIsSelected(Selector(true, false, false, false), ls, id, t, era);
    ChosenIsSelected(Selector(false, true, false, false), ls, id, t, era);
    ChosenIsSelected(Selector(false, false, true, false), ls, id, t, era);
    ChosenIsSelected(Selector(false, false, false, true), ls, id, t, era);
    ChosenIsSelected(Selector(true, true, true, true), ls, id, t, era);
    FourStates(ls, Only(id), t);
  }

  /** One line for each identity with words to show, in whatever order. */
  ghost predicate LinesRight(lines: seq<Line>, s: Selector, ls: seq<Life>, t: nat) {
    && (forall i, j :: 0 <= i < j < |lines| ==> lines[i].id != lines[j].id)
    && (forall line: Line :: line in lines <==> line.words == SelectedWords(s, ls, line.id, t) && line.words > 0)
  }

  function WordsShown(c: Census, s: Selector, id: nat): int {
    Chosen(s, Printed(Lookup(c.hash, id)))
  }

  /** One line for each of the identities given with words to show in a census. */
  ghost predicate LinesOf(lines: seq<Line>, c: Census, s: Selector, ids: seq<nat>) {
    && (forall i, j :: 0 <= i < j < |lines| ==> lines[i].id != lines[j].id)
    && (forall line: Line ::
          line in lines <==> line.id in ids && line.words == WordsShown(c, s, line.id) && line.words != 0)
  }

  lemma LinesOfNext(lines: seq<Line>, c: Census, s: Selector, k: nat)
    requires k < |c.ctrs| && Listed(c.hash, c.ctrs) && LinesOf(lines, c, s, c.ctrs[..k])
    ensures c.ctrs[k] in c.hash
    ensures var n := Chosen(s, Printed(c.hash[c.ctrs[k]]));
      LinesOf(if n != 0 then lines + [Line(c.ctrs[k], n)] else lines, c, s, c.ctrs[..k + 1])
  {
    hide Chosen, Printed;
    assert c.ctrs[..k + 1] == c.ctrs[..k] + [c.ctrs[k]];
    assert forall i :: 0 <= i < |lines| ==> lines[i] in lines;
    assert c.ctrs[k] !in c.ctrs[..k];
  }

  lemma NothingShown(c: Census, s: Selector, id: nat)
    requires Listed(c.hash, c.ctrs) && id !in c.ctrs
    ensures WordsShown(c, s, id) == 0
  {
  }

  lemma LinesOfAll(lines: seq<Line>, c: Census, s: Selector, ls: seq<Life>, t: nat)
    requires Listed(c.hash, c.ctrs) && LinesOf(lines, c, s, c.ctrs)
    requires forall id :: WordsShown(c, s, id) == SelectedWords(s, ls, id, t)
    ensures LinesRight(lines, s, ls, t)
  {
    hide SelectedWords, WordsShown, Listed;
    forall id: nat | id !in c.ctrs ensures WordsShown(c, s, id) == 0 {
      NothingShown(c, s, id);
    }
  }

  lemma FinalIsBiography(ls: seq<Life>, b: Band, t: nat, era: nat)
    requires (forall l <- ls :: Orderly(l, era)) && AllDead(ls)
    ensures Printed(Final(ls, b, t)) == BiographyAt(ls, b, t)
  {
    hide Sum, Running;
    ReportIsBiography(ls, b, t, era);
  }

  /** LDV_recordDead comes by its assertion on the void words of the closure's first era. */
  predicate Asserts(l: Life, era: nat, selecting: bool) {
    !selecting && l.selected && !l.prim && l.first == 0 && l.born < era
  }

  /** It asks for strictly fewer void words than unused ones, which is so exactly if some closure
      leaves slack. */
  lemma AssertionExactly(c: Census, ls: seq<Life>, t: nat, era: nat)
    requires Recorded(c, ls, t, true, false) && forall l <- ls :: Orderly(l, era)
    ensures c.totals.voidTotal < c.totals.notUsed <==> exists l :: l in ls && LeavesSlack(l, Everything, t)
  {
    hide Sum, LeavesSlack;
    assert Figure(c, Everything) == Expected(ls, Everything, t, true);
    VoidEntryBound(ls, Everything, t, era);
  }

  /** A program on which the assertion fails although the figures are right: a closure allocated in era
      1 is found dead, never used, in era 2, and there is no other. */
  method VoidAssertionIsTooStrict() returns (profiler: HeapProfiler, asserted: bool)
    ensures !asserted && profiler.Valid() && fresh(profiler)
  {
    profiler := new HeapProfiler(false);
    profiler.Create(PROF_HEADER_WORDS + 1, false, true, 0);
    var ok := profiler.HeapCensus();
    asserted := profiler.Destroy(0);
    assert profiler.lives == [Buried(NewLife(PROF_HEADER_WORDS + 1, false, true, 0, 1), 2)];
  }

  /** A closure alive at a census has a counter there. */
  lemma HasCounter(c: Census, ls: seq<Life>, i: nat, t: nat, selecting: bool)
    requires Recorded(c, ls, t, true, selecting)
    requires i < |ls| && ls[i].selected && LiveAt(ls[i], t)
    ensures selecting ==> ls[i].id in c.hash
  {
    hide Figure, Expected, Listed;
    assert ls[i] in ls;
  }

  class HeapProfiler {
    const selecting: bool
    var era: nat
    var censuses: array<Census>
    var heap: seq<Closure>
    var live: seq<bool>
    ghost var lives: seq<Life>

    ghost predicate Valid()
      reads this, censuses
    {
      Consistent(era)
    }

    /** Every census before `upto` has been taken, and every census holds what it should. */
    ghost predicate Consistent(upto: nat)
      reads this, censuses
    {
      && 1 <= era < MAX_ERA && era < censuses.Length
      && |heap| == |live| == |lives|
      && (forall i :: 0 <= i < |heap| ==> Matches(heap[i], live[i], lives[i], era))
      && (forall t :: 1 <= t <= era ==> Recorded(censuses[t], lives, t, t < upto, selecting))
    }

    /** Profiling starts in era 1 with an empty heap. */
    constructor (selecting: bool)
      ensures Valid() && fresh(censuses)
      ensures this.selecting == selecting && era == 1 && lives == []
    {
      this.selecting := selecting;
      era := 1;
      censuses := new Census[32](_ => NO_CENSUS);
      heap, live, lives := [], [], [];
    }

    /** A closure is allocated: its LDV word gets the current era as its creation era. */
    method Create(words: nat, prim: bool, selected: bool, id: nat)
      requires Valid() && words >= PROF_HEADER_WORDS
      modifies this
      ensures Valid() && era == old(era) && censuses == old(censuses)
      ensures lives == old(lives) + [NewLife(words, prim, selected, id, era)]
    {
      hide Recorded, CreatedIn, InStateUse, LastUsedIn, RecordCreate;
      heap := heap + [Closure(words, prim, selected, id, RecordCreate(era))];
      live := live + [true];
      ghost var l := NewLife(words, prim, selected, id, era);
      forall t | 1 <= t <= era ensures Recorded(censuses[t], lives + [l], t, t < era, selecting) {
        BirthKeepsCensus(censuses[t], lives, l, t, era, selecting);
      }
      lives := lives + [l];
    }

    /** A closure is entered: its last use is now. */
    method Enter(i: nat)
      requires Valid() && i < |heap| && live[i]
      modifies this
      ensures Valid() && era == old(era) && censuses == old(censuses)
      ensures lives == old(lives)[i := Touched(old(lives[i]), era)]
    {
      hide Recorded, CreatedIn, InStateUse, LastUsedIn, RecordUse;
      heap := heap[i := heap[i].(ldvw := RecordUse(heap[i].ldvw, era))];
      ghost var ls := lives[i := Touched(lives[i], era)];
      forall t | 1 <= t <= era ensures Recorded(censuses[t], ls, t, t < era, selecting) {
        UseKeepsCensus(censuses[t], lives, i, t, era, selecting);
      }
      lives := ls;
    }

    /** Adds to a counter that must be there already. */
    method Charge(t: nat, id: nat, d: Counter)
      requires t < censuses.Length
      requires selecting ==> id in censuses[t].hash
      modifies censuses
      ensures censuses[..] == old(censuses[..])[t := AddTo(old(censuses[t]), selecting, id, d)]
    {
      var c := censuses[t];
      if !selecting {
        censuses[t] := c.(totals := Plus(c.totals, d));
      } else {
        censuses[t] := c.(hash := c.hash[id := Plus(c.hash[id], d)]);
      }
    }

    /** Adds to a counter of the current era, which is created when there is none. */
    method ChargeNow(id: nat, d: Counter)
      requires era < censuses.Length
      modifies censuses
      ensures censuses[..] == old(censuses[..])[era := AddTo(old(censuses[era]), selecting, id, d)]
    {
      var c := censuses[era];
      if !selecting {
        censuses[era] := c.(totals := Plus(c.totals, d));
      } else {
        var ctr := ZERO;
        if id in c.hash {
          ctr := c.hash[id];
        } else {
          c := c.(ctrs := [id] + c.ctrs);
          PlusZero(d);
        }
        censuses[era] := c.(hash := c.hash[id := Plus(ctr, d)]);
      }
    }

    /** LDV_recordDead: the two signed entries of a death. `asserted` is what the assertion on the void
        words comes to, true if it is not reached. */
    method RecordDead(i: nat) returns (asserted: bool)
      requires Valid() && i < |heap| && live[i] && !heap[i].prim
      modifies censuses
      ensures forall t :: 1 <= t <= era ==>
                censuses[t] == AfterDeath(old(censuses[t]), lives[i], t, era, selecting)
      ensures var totals := if 1 <= lives[i].born <= era then censuses[lives[i].born].totals else ZERO;
        asserted <==> (Asserts(lives[i], era, selecting) ==> totals.voidTotal < totals.notUsed)
    {
      hide Recorded, CreatedIn, InStateUse, LastUsedIn, AddTo;
      asserted := true;
      var c := heap[i];
      if c.selected {
        var size := c.words - PROF_HEADER_WORDS;
        if !InStateUse(c.ldvw) {
          var t := CreatedIn(c.ldvw);
          if t < era {
            HasCounter(censuses[t], lives, i, t, selecting);
            Charge(t, c.id, Counter(0, 0, 0, size, 0));
            ChargeNow(c.id, Counter(0, 0, 0, -size, 0));
            if !selecting {
              asserted := censuses[t].totals.voidTotal < censuses[t].totals.notUsed;
            }
          }
        } else {
          var t := LastUsedIn(c.ldvw);
          if t + 1 < era {
            HasCounter(censuses[t + 1], lives, i, t + 1, selecting);
            Charge(t + 1, c.id, Counter(0, 0, 0, 0, size));
            ChargeNow(c.id, Counter(0, 0, 0, 0, -size));
          }
        }
      }
    }

    /** A closure found dead, or about to be overwritten: nothing is recorded for an inherently
        used one. The assertion holds exactly if some closure leaves slack at the first census of this
        one. */
    method Destroy(i: nat) returns (asserted: bool)
      requires Valid() && i < |heap| && live[i]
      modifies this, censuses
      ensures Valid() && era == old(era) && censuses == old(censuses)
      ensures live == old(live)[i := false] && heap == old(heap)
      ensures lives == old(lives)[i := Buried(old(lives[i]), era)]
      ensures asserted <==>
                (Asserts(old(lives[i]), era, selecting) ==>
                  exists l :: l in lives && LeavesSlack(l, Everything, old(lives[i]).born))
    {
      hide Recorded, CreatedIn, InStateUse, LastUsedIn, AddTo, LeavesSlack;
      asserted := true;
      ghost var ls := lives[i := Buried(lives[i], era)];
      ghost var was := censuses[..];
      forall t | 1 <= t <= era
        ensures Recorded(AfterDeath(was[t], lives[i], t, era, selecting), ls, t, t < era, selecting)
      {
        DeathKeepsCensus(was[t], lives, i, t, era, selecting);
      }
      if !heap[i].prim {
        asserted := RecordDead(i);
      }
      if Asserts(lives[i], era, selecting) {
        AssertionExactly(censuses[lives[i].born], ls, lives[i].born, era);
      }
      live := live[i := false];
      lives := ls;
    }

    /** heapProfObject: the words of a live closure go to the counter of its state. */
    method HeapProfObject(c: Closure)
      requires era < censuses.Length && c.words >= PROF_HEADER_WORDS
      modifies censuses
      ensures censuses[..] == old(censuses[..])[era :=
                if c.selected then AddTo(old(censuses[era]), selecting, c.id,
                                         Counted(c.prim, InStateUse(c.ldvw), c.words - PROF_HEADER_WORDS))
                else old(censuses[era])]
    {
      if c.selected {
        var size := c.words - PROF_HEADER_WORDS;
        if c.prim {
          ChargeNow(c.id, Counter(size, 0, 0, 0, 0));
        } else if !InStateUse(c.ldvw) {
          ChargeNow(c.id, Counter(0, size, 0, 0, 0));
        } else {
          ChargeNow(c.id, Counter(0, 0, size, 0, 0));
        }
      }
    }

    /** The walk over the live heap. */
    method CountHeap()
      requires Valid()
      modifies censuses
      ensures Consistent(era + 1)
    {
      hide Recorded, PartlyTaken, AddTo, CreatedIn, InStateUse, LastUsedIn;
      FirstAndLastCount(censuses[era], lives, era, selecting);
      var i := 0;
      while i < |heap|
        invariant i <= |heap|
        invariant forall t :: 1 <= t < era ==> censuses[t] == old(censuses[t])
        invariant PartlyTaken(censuses[era], lives, i, era, selecting)
      {
        CountingKeeps(censuses[era], lives, i, era, selecting);
        if live[i] {
          HeapProfObject(heap[i]);
        }
        i := i + 1;
      }
      FirstAndLastCount(censuses[era], lives, era, selecting);
    }

    /** nextEra: a new census is prepared; the program stops when the eras are used up. */
    method NextEra() returns (ok: bool)
      requires Consistent(era + 1)
      modifies this, censuses
      ensures ok <==> old(era) + 1 < MAX_ERA
      ensures ok ==> Valid() && era == old(era) + 1
      ensures lives == old(lives) && heap == old(heap) && live == old(live)
      ensures censuses == old(censuses) || fresh(censuses)
    {
      hide Recorded, CreatedIn, InStateUse, LastUsedIn;
      ghost var was := censuses[..];
      era := era + 1;
      if era == MAX_ERA {
        return false;
      }
      if era == censuses.Length {
        var bigger := new Census[2 * era](_ => NO_CENSUS);
        var t := 0;
        while t < era
          invariant t <= era == |was| && censuses[..] == was
          invariant bigger.Length == 2 * era
          invariant forall u :: 0 <= u < t ==> bigger[u] == was[u]
          modifies bigger
        {
          bigger[t] := censuses[t];
          t := t + 1;
        }
        censuses := bigger;
      }
      censuses[era] := NO_CENSUS;
      FreshCensus(lives, era, era - 1, selecting);
      return true;
    }

    /** heapCensus: all live closures are counted and the next era begins. */
    method HeapCensus() returns (ok: bool)
      requires Valid()
      modifies this, censuses
      ensures ok <==> old(era) + 1 < MAX_ERA
      ensures ok ==> Valid() && era == old(era) + 1
      ensures lives == old(lives) && heap == old(heap) && live == old(live)
      ensures censuses == old(censuses) || fresh(censuses)
    {
      CountHeap();
      ok := NextEra();
    }

    /** LdvCensusForDead: after a collection everything that was not evacuated is dead. With
        nothing evacuated this is LdvCensusKillAll, the end of the program. */
    method CensusForDead(evacuated: set<nat>)
      requires Valid()
      modifies this, censuses
      ensures Valid() && era == old(era) && censuses == old(censuses) && heap == old(heap)
      ensures |lives| == |old(lives)|
      ensures forall i :: 0 <= i < |lives| ==>
                lives[i] == if i in evacuated || old(lives[i]).died != 0 then old(lives[i]) else Buried(old(lives[i]), era)
    {
      var i := 0;
      while i < |heap|
        invariant i <= |heap|
        invariant Valid() && era == old(era) && censuses == old(censuses) && heap == old(heap)
        invariant |lives| == |old(lives)|
        invariant forall j :: i <= j < |lives| ==> lives[j] == old(lives[j])
        invariant forall j :: 0 <= j < i ==>
                    lives[j] == if j in evacuated || old(lives[j]).died != 0 then old(lives[j]) else Buried(old(lives[j]), era)
      {
        hide Recorded, CreatedIn, InStateUse, LastUsedIn;
        if live[i] && i !in evacuated {
          var asserted := Destroy(i);
        }
        i := i + 1;
      }
    }

    /** What holds while the censuses are aggregated in order: those before t are done. */
    ghost predicate AggregatedBefore(t: nat)
      reads this, censuses
    {
      && 1 <= t <= era < censuses.Length && AllDead(lives)
      && (forall l <- lives :: Orderly(l, era))
      && (forall u :: 1 <= u < t ==> Aggregated(censuses[u], lives, u, selecting))
      && (forall u :: t <= u < era ==> Recorded(censuses[u], lives, u, true, selecting))
    }

    /** aggregateCensusInfo when displaying by biography. */
    method AggregateTotals()
      requires AggregatedBefore(1) && !selecting
      modifies censuses
      ensures AggregatedBefore(era)
    {
      hide Sum;
      var voidTotal, dragTotal := 0, 0;
      var t := 1;
      while t < era
        invariant AggregatedBefore(t)
        invariant voidTotal == Running(VoidStep, lives, Everything, t - 1)
        invariant dragTotal == Running(DragStep, lives, Everything, t - 1)
      {
        var c := censuses[t].totals;
        assert Figure(censuses[t], Everything) == Expected(lives, Everything, t, true);
        voidTotal := voidTotal + c.voidTotal;
        dragTotal := dragTotal + c.dragTotal;
        ReportIsBiography(lives, Everything, t, era);
        assert voidTotal <= c.notUsed && dragTotal <= c.used;
        censuses[t] := censuses[t].(totals := c.(voidTotal := voidTotal, dragTotal := dragTotal));
        t := t + 1;
      }
    }

    method CarryCounter(t: nat, acc: map<nat, Counter>, id: nat) returns (r: map<nat, Counter>)
      requires t < censuses.Length && id in acc
      requires id !in censuses[t].hash ==> acc[id].voidTotal == 0 && acc[id].dragTotal == 0
      modifies censuses
      ensures forall u :: 0 <= u < censuses.Length && u != t ==> censuses[u] == old(censuses[u])
      ensures (censuses[t], r) == CarryOne(old(censuses[t]), acc, id)
    {
      r := acc;
      if id !in censuses[t].hash {
        assert acc[id].voidTotal == 0 && acc[id].dragTotal == 0;
      } else {
        var ctr := Carried(censuses[t].hash[id], acc[id]);
        censuses[t] := censuses[t].(hash := censuses[t].hash[id := ctr]);
        r := r[id := WithTotals(acc[id], ctr)];
      }
    }

    /** The running totals of the identities seen so far are added to census t. */
    method CarryForward(t: nat, acc: map<nat, Counter>, ctrs: seq<nat>) returns (r: map<nat, Counter>)
      requires t < censuses.Length && Listed(acc, ctrs)
      requires forall id | id in acc && id !in censuses[t].hash :: acc[id].voidTotal == 0 && acc[id].dragTotal == 0
      modifies censuses
      ensures forall u :: 0 <= u < censuses.Length && u != t ==> censuses[u] == old(censuses[u])
      ensures CarriedInto(old(censuses[t]), censuses[t], acc, r)
      ensures r.Keys == acc.Keys
    {
      ghost var c := censuses[t];
      r := acc;
      var k := 0;
      while k < |ctrs|
        invariant k <= |ctrs|
        invariant forall u :: 0 <= u < censuses.Length && u != t ==> censuses[u] == old(censuses[u])
        invariant CarriedSome(c, censuses[t], acc, r, ctrs[..k])
      {
        hide CarriedSome, CarryOne, Listed;
        CarryOneMore(c, censuses[t], acc, r, ctrs, k);
        r := CarryCounter(t, r, ctrs[k]);
        k := k + 1;
      }
      assert ctrs[..k] == ctrs;
    }

    /** The identities of census t that were not seen before start with its totals. */
    method AddNewBands(t: nat, acc: map<nat, Counter>, ctrs: seq<nat>)
      returns (r: map<nat, Counter>, rs: seq<nat>)
      requires t < censuses.Length && Listed(acc, ctrs) && Listed(censuses[t].hash, censuses[t].ctrs)
      ensures Listed(r, rs) && Joined(censuses[t], acc, r)
    {
      var c := censuses[t];
      r, rs := acc, ctrs;
      var k := 0;
      while k < |c.ctrs|
        invariant k <= |c.ctrs|
        invariant Listed(r, rs)
        invariant forall id | id in acc :: id in r && r[id] == acc[id]
        invariant forall id | id !in acc :: id in r <==> id in c.ctrs[..k]
        invariant forall id | id !in acc && id in c.ctrs[..k] :: r[id] == WithTotals(ZERO, c.hash[id])
      {
        var id := c.ctrs[k];
        if id !in r {
          r := r[id := WithTotals(ZERO, c.hash[id])];
          rs := [id] + rs;
        }
        k := k + 1;
      }
    }

    /** aggregateCensusInfo when a profile by identity is restricted to some biographies. */
    method AggregateBands()
      requires AggregatedBefore(1) && selecting
      modifies censuses
      ensures AggregatedBefore(era)
    {
      var acc: map<nat, Counter>, ctrs: seq<nat> := map[], [];
      var t := 1;
      while t < era
        invariant AggregatedBefore(t)
        invariant Listed(acc, ctrs) && Accumulated(acc, lives, t - 1)
      {
        hide Listed, Sum, CarriedInto, Joined, Accumulated;
        ghost var c, was := censuses[t], acc;
        forall id | id !in c.hash ensures Lookup(acc, id).voidTotal == 0 && Lookup(acc, id).dragTotal == 0 {
          MissingIsZero(c, acc, lives, t, era, id);
        }
        var carried := CarryForward(t, acc, ctrs);
        CarriedRight(c, censuses[t], was, carried, lives, t, era);
        SameKeysListed(was, carried, ctrs);
        acc, ctrs := AddNewBands(t, carried, ctrs);
        AccumulatedNext(c, censuses[t], was, carried, acc, lives, t, era);
        t := t + 1;
      }
    }

    /** dumpCensus when displaying by biography. */
    method DumpTotals(t: nat) returns (r: Report)
      requires 1 <= t < era && AggregatedBefore(era) && !selecting
      ensures FiguresRight(r, lives, t)
    {
      hide Sum;
      var c := censuses[t].totals;
      assert c == Figure(censuses[t], Everything);
      r := Report(c.voidTotal, c.notUsed - c.voidTotal, c.used - c.dragTotal, c.prim, c.dragTotal);
      FinalIsBiography(lives, Everything, t, era);
      ReportIsBiography(lives, Everything, t, era);
    }

    /** The words of a counter in the states selected. */
    static method Count(ctr: Counter, s: Selector) returns (count: int)
      ensures count == Chosen(s, Printed(ctr))
    {
      count := 0;
      if s.lag { count := count + ctr.notUsed - ctr.voidTotal; }
      if s.drag { count := count + ctr.dragTotal; }
      if s.void { count := count + ctr.voidTotal; }
      if s.use { count := count + ctr.used - ctr.dragTotal; }
    }

    /** The loop of dumpCensus over the counters of a census. */
    static method PrintCounters(c: Census, s: Selector) returns (lines: seq<Line>)
      requires Listed(c.hash, c.ctrs)
      ensures LinesOf(lines, c, s, c.ctrs)
    {
      lines := [];
      for k := 0 to |c.ctrs|
        invariant LinesOf(lines, c, s, c.ctrs[..k])
      {
        hide LinesOf, Chosen, Printed, Listed;
        var id := c.ctrs[k];
        var count := Count(c.hash[id], s);
        LinesOfNext(lines, c, s, k);
        if count != 0 {
          lines := lines + [Line(id, count)];
        }
      }
      assert c.ctrs[..|c.ctrs|] == c.ctrs;
    }

    /** dumpCensus for a profile by identity. */
    method DumpBands(t: nat, s: Selector) returns (lines: seq<Line>)
      requires 1 <= t < era && AggregatedBefore(era) && selecting
      ensures LinesRight(lines, s, lives, t)
    {
      hide Sum, BiographyAt, Final, LinesOf, LinesRight, SelectedWords, Chosen;
      var c := censuses[t];
      lines := PrintCounters(c, s);
      forall id: nat ensures WordsShown(c, s, id) == SelectedWords(s, lives, id, t) {
        FinalIsBiography(lives, Only(id), t, era);
        ChosenIsSelected(s, lives, id, t, era);
        assert Figure(c, Only(id)) == Final(lives, Only(id), t);
      }
      LinesOfAll(lines, c, s, lives, t);
    }

    /** endHeapProfiling: whatever is left dies, the censuses are aggregated and printed. */
    method EndHeapProfiling(s: Selector) returns (totals: seq<Report>, bands: seq<seq<Line>>)
      requires Valid()
      modifies this, censuses
      ensures era == old(era) && |lives| == |old(lives)|
      ensures forall i :: 0 <= i < |lives| ==>
                lives[i] == if old(lives[i]).died != 0 then old(lives[i]) else Buried(old(lives[i]), era)
      ensures (forall l <- lives :: Orderly(l, era)) && AllDead(lives)
      ensures |totals| == |bands| == era - 1
      ensures !selecting ==> forall k :: 0 <= k < |totals| ==> FiguresRight(totals[k], lives, k + 1)
      ensures selecting ==> forall k :: 0 <= k < |bands| ==> LinesRight(bands[k], s, lives, k + 1)
    {
      hide Recorded, Aggregated, FiguresRight, LinesRight, CreatedIn, InStateUse, LastUsedIn;
      CensusForDead({});
      assert AggregatedBefore(1);
      if selecting { AggregateBands(); } else { AggregateTotals(); }
      totals, bands := [], [];
      for t := 1 to era
        invariant |totals| == |bands| == t - 1
        invariant !selecting ==> forall k :: 0 <= k < |totals| ==> FiguresRight(totals[k], lives, k + 1)
        invariant selecting ==> forall k :: 0 <= k < |bands| ==> LinesRight(bands[k], s, lives, k + 1)
        modifies {}
      {
        var r, lines := Printed(ZERO), [];
        if selecting {
          lines := DumpBands(t, s);
        } else {
          r := DumpTotals(t);
        }
        totals, bands := totals + [r], bands + [lines];
      }
    }
  }
}
