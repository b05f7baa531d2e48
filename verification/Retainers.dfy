/** Retainer sets as values (rts/RetainerSet.c, rts/RetainerSet.h). The hash-consed objects of
    module RetainerSets represent them. */
module Retainers {

  type Retainer = nat

  /** A closure's retainer-set field: not yet set, the saturated set, or a set of retainers. */
  datatype RSet = Null | Many | Fin(elems: set<Retainer>)

  function Num(s: RSet): nat {
    if s.Fin? then |s.elems| else 0
  }

  /** rs_MANY claims every member. */
  predicate IsMember(r: Retainer, s: RSet) {
    s.Many? || (s.Fin? && r in s.elems)
  }

  function Singleton(r: Retainer): RSet {
    Fin({r})
  }

  /** addElement: a set that has reached the size limit, or is rs_MANY, becomes rs_MANY. */
  function AddElement(r: Retainer, s: RSet, limit: nat): RSet
    requires !s.Null?
  {
    if s.Many? || Num(s) == limit then Many else Fin(s.elems + {r})
  }

  /** How far a field is on its way from Null to rs_MANY. */
  function Weight(s: RSet, limit: nat): nat {
    match s
    case Null => 0
    case Many => limit + 1
    case Fin(e) => |e|
  }

  predicate Bounded(s: RSet, limit: nat) {
    s.Fin? ==> 1 <= |s.elems| <= limit
  }

  lemma AddGrows(r: Retainer, s: RSet, limit: nat)
    requires limit >= 1 && !s.Null? && Bounded(s, limit) && !IsMember(r, s)
    ensures Bounded(AddElement(r, s, limit), limit)
    ensures Weight(s, limit) < Weight(AddElement(r, s, limit), limit)
  {
    if Num(s) != limit {
      assert |s.elems + {r}| == |s.elems| + 1;
    }
  }
}
