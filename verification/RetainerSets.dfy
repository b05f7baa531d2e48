/** The hash-consed retainer sets (rts/RetainerSet.c, rts/RetainerSet.h): sorted element arrays,
    filed under the sum of their elements, one object for each set. */
module RetainerSets {
  import opened Retainers

  const HASH_TABLE_SIZE := 255
  const BINARY_SEARCH_THRESHOLD := 8
  const WORD := 0x1_0000_0000_0000_0000

  /** A retainer set object. Its id tells it from every other object. */
  datatype Object = Set(hashKey: nat, id: nat, element: seq<Retainer>)

  /** A pointer to a retainer set: to rs_MANY or to an object of the table. */
  datatype Pointer = RsMany | To(rs: Object)

  predicate Increasing(s: seq<Retainer>) {
    forall i, j :: 0 <= i < j < |s| ==> s[i] < s[j]
  }

  function Elements(s: seq<Retainer>): set<Retainer> {
    set r | r in s
  }

  function Sum(s: seq<Retainer>): nat {
    if s == [] then 0 else s[0] + Sum(s[1..])
  }

  /** hashKeySingleton and hashKeyAddElement: the sum of the elements in machine words. */
  function Key(s: seq<Retainer>): nat {
    Sum(s) % WORD
  }

  function Hash(key: nat): nat {
    key % HASH_TABLE_SIZE
  }

  /** The retainer set that a pointer stands for. */
  function Value(p: Pointer): RSet {
    match p
    case RsMany => Many
    case To(rs) => Fin(Elements(rs.element))
  }

  predicate ObjectOk(x: Object, limit: nat, nextId: nat) {
    && Increasing(x.element) && 1 <= |x.element| <= limit
    && x.hashKey == Key(x.element) && 2 <= x.id < nextId
  }

  // ---------------------------------------------------------------- sorted sequences

  /** The number of elements less than r. */
  function Position(r: Retainer, s: seq<Retainer>): (n: nat)
    ensures n <= |s|
  {
    if s == [] || r < s[0] then 0 else 1 + Position(r, s[1..])
  }

  function Insert(r: Retainer, s: seq<Retainer>): seq<Retainer> {
    s[..Position(r, s)] + [r] + s[Position(r, s)..]
  }

  lemma {:induction false} PositionSplits(r: Retainer, s: seq<Retainer>, n: nat)
    requires n <= |s| && (forall i :: 0 <= i < n ==> s[i] <= r) && (n < |s| ==> r < s[n])
    ensures Position(r, s) == n
  {
    if n > 0 {
      assert s[0] <= r;
      PositionSplits(r, s[1..], n - 1);
    }
  }

  lemma {:induction false} PositionIsBetween(r: Retainer, s: seq<Retainer>)
    ensures forall i :: 0 <= i < Position(r, s) ==> s[i] <= r
    ensures Position(r, s) < |s| ==> r < s[Position(r, s)]
  {
    if s != [] && s[0] <= r {
      PositionIsBetween(r, s[1..]);
      forall i | 0 <= i < Position(r, s) ensures s[i] <= r {
        assert i > 0 ==> s[i] == s[1..][i - 1];
      }
    }
  }

  lemma InsertAtElements(r: Retainer, s: seq<Retainer>, n: nat)
    requires n <= |s|
    ensures Elements(s[..n] + [r] + s[n..]) == Elements(s) + {r}
  {
    var t := s[..n] + [r] + s[n..];
    forall x | x in s ensures x in t {
      var i :| 0 <= i < |s| && s[i] == x;
      assert t[if i < n then i else i + 1] == x;
    }
    assert t[n] == r;
  }

  lemma InsertAtSum(r: Retainer, s: seq<Retainer>, n: nat)
    requires n <= |s|
    ensures Sum(s[..n] + [r] + s[n..]) == Sum(s) + r
  {
    SumOfOne(r);
    hide Sum;
    assert s[..n] + s[n..] == s;
    SumOfParts(s[..n], s[n..]);
    SumOfParts(s[..n] + [r], s[n..]);
    SumOfParts(s[..n], [r]);
  }

  lemma SumOfOne(r: Retainer)
    ensures Sum([r]) == r
  {
  }

  lemma InsertAtIncreases(r: Retainer, s: seq<Retainer>, n: nat)
    requires n <= |s| && Increasing(s)
    requires n > 0 ==> s[n - 1] < r
    requires n < |s| ==> r < s[n]
    ensures Increasing(s[..n] + [r] + s[n..])
  {
    var t := s[..n] + [r] + s[n..];
    forall i, j | 0 <= i < j < |t| ensures t[i] < t[j] {
      assert t[i] == if i < n then s[i] else if i == n then r else s[i - 1];
      assert t[j] == if j < n then s[j] else if j == n then r else s[j - 1];
    }
  }

  lemma InsertKeeps(r: Retainer, s: seq<Retainer>)
    requires Increasing(s) && r !in s
    ensures Increasing(Insert(r, s))
    ensures Elements(Insert(r, s)) == Elements(s) + {r}
    ensures |Insert(r, s)| == |s| + 1
    ensures Sum(Insert(r, s)) == Sum(s) + r
  {
    hide Sum, Elements;
    var n := Position(r, s);
    PositionIsBetween(r, s);
    hide Position;
    InsertAtElements(r, s, n);
    InsertAtSum(r, s, n);
    InsertAtIncreases(r, s, n);
  }

  lemma {:induction false} SumOfParts(a: seq<Retainer>, b: seq<Retainer>)
    ensures Sum(a + b) == Sum(a) + Sum(b)
  {
    if a == [] {
      assert a + b == b;
    } else {
      assert (a + b)[1..] == a[1..] + b;
      SumOfParts(a[1..], b);
    }
  }

  /** Sorted sequences with the same elements are equal. */
  lemma {:induction false} SortedIsUnique(a: seq<Retainer>, b: seq<Retainer>)
    requires Increasing(a) && Increasing(b) && Elements(a) == Elements(b)
    ensures a == b
    decreases |a|
  {
    ElementsCount(a);
    ElementsCount(b);
    if a != [] {
      assert a[0] in Elements(b) && b[0] in Elements(a);
      assert a[0] == b[0];
      assert Elements(a[1..]) == Elements(a) - {a[0]} by { TailElements(a); }
      assert Elements(b[1..]) == Elements(b) - {b[0]} by { TailElements(b); }
      SortedIsUnique(a[1..], b[1..]);
    }
  }

  lemma TailElements(a: seq<Retainer>)
    requires Increasing(a) && a != []
    ensures Elements(a[1..]) == Elements(a) - {a[0]}
  {
    forall x | x in Elements(a) && x != a[0] ensures x in a[1..] {
      var i :| 0 <= i < |a| && a[i] == x;
      assert a[1..][i - 1] == x;
    }
  }

  lemma {:induction false} ElementsCount(a: seq<Retainer>)
    requires Increasing(a)
    ensures |Elements(a)| == |a|
  {
    if a != [] {
      ElementsCount(a[1..]);
      TailElements(a);
      assert Elements(a) == Elements(a[1..]) + {a[0]};
    }
  }

  // ---------------------------------------------------------------- the table

  /** Two objects of one chain are never the same set. */
  predicate NoTwins(chain: seq<Object>) {
    forall i, j :: 0 <= i < j < |chain| ==> chain[i].element != chain[j].element
  }

  predicate Filed(chain: seq<Object>, bucket: nat, limit: nat, nextId: nat) {
    forall i :: 0 <= i < |chain| ==> ObjectOk(chain[i], limit, nextId) && Hash(chain[i].hashKey) == bucket
  }

  /** Ids are given out in order, so an object created later has a larger one. */
  predicate IdsDiffer(table: seq<seq<Object>>) {
    forall b, c, i, j :: 0 <= b < |table| && 0 <= c < |table| && 0 <= i < |table[b]| && 0 <= j < |table[c]| ==>
      table[b][i].id == table[c][j].id ==> b == c && i == j
  }

  predicate TableOk(table: seq<seq<Object>>, limit: nat, nextId: nat) {
    && |table| == HASH_TABLE_SIZE && limit >= 1 && nextId >= 2
    && (forall b :: 0 <= b < |table| ==> Filed(table[b], b, limit, nextId) && NoTwins(table[b]))
    && IdsDiffer(table)
  }

  predicate InTable(table: seq<seq<Object>>, x: Object)
    requires |table| == HASH_TABLE_SIZE
  {
    x in table[Hash(x.hashKey)]
  }

  lemma InChain(table: seq<seq<Object>>, limit: nat, nextId: nat, b: nat, k: nat)
    requires TableOk(table, limit, nextId) && b < |table| && k < |table[b]|
    ensures ObjectOk(table[b][k], limit, nextId) && InTable(table, table[b][k])
  {
    assert Filed(table[b], b, limit, nextId);
  }

  /** Equal sets are the same object. */
  lemma Canonical(table: seq<seq<Object>>, limit: nat, nextId: nat, x: Object, y: Object)
    requires TableOk(table, limit, nextId) && InTable(table, x) && InTable(table, y)
    ensures Elements(x.element) == Elements(y.element) <==> x == y
    ensures x.id == y.id <==> x == y
  {
    var b, c := Hash(x.hashKey), Hash(y.hashKey);
    var i :| 0 <= i < |table[b]| && table[b][i] == x;
    var j :| 0 <= j < |table[c]| && table[c][j] == y;
    if Elements(x.element) == Elements(y.element) {
      SortedIsUnique(x.element, y.element);
      assert b == c;
      assert i == j;
    }
  }

  /** A new object at the head of its chain. */
  lemma Filing(table: seq<seq<Object>>, limit: nat, nextId: nat, x: Object)
    requires TableOk(table, limit, nextId) && ObjectOk(x, limit, nextId + 1) && x.id == nextId
    requires forall y <- table[Hash(x.hashKey)] :: y.element != x.element
    ensures TableOk(table[Hash(x.hashKey) := [x] + table[Hash(x.hashKey)]], limit, nextId + 1)
  {
    var h := Hash(x.hashKey);
    var table': seq<seq<Object>> := table[h := [x] + table[h]];
    forall b | 0 <= b < |table'| ensures Filed(table'[b], b, limit, nextId + 1) && NoTwins(table'[b]) {
      assert Filed(table[b], b, limit, nextId) && NoTwins(table[b]);
    }
    hide Filed, NoTwins;
    FilingIds(table, limit, nextId, x);
  }

  lemma FilingIds(table: seq<seq<Object>>, limit: nat, nextId: nat, x: Object)
    requires TableOk(table, limit, nextId) && x.id == nextId
    ensures IdsDiffer(table[Hash(x.hashKey) := [x] + table[Hash(x.hashKey)]])
  {
    var h := Hash(x.hashKey);
    var table': seq<seq<Object>> := table[h := [x] + table[h]];
    forall b, c, i, j | 0 <= b < |table'| && 0 <= c < |table'| && 0 <= i < |table'[b]| && 0 <= j < |table'[c]|
                     && table'[b][i].id == table'[c][j].id
      ensures b == c && i == j
    {
      var old1: nat := if b != h then table[b][i].id else if i == 0 then nextId else table[b][i - 1].id;
      var old2: nat := if c != h then table[c][j].id else if j == 0 then nextId else table[c][j - 1].id;
      assert table'[b][i].id == old1 && table'[c][j].id == old2;
      assert forall d, k :: 0 <= d < |table| && 0 <= k < |table[d]| ==> table[d][k].id < nextId;
    }
  }

  class RetainerSetTable {
    const maxRetainerSetSize: nat
    var hashTable: array<seq<Object>>
    var nextId: nat

    ghost predicate Valid()
      reads this, hashTable
    {
      TableOk(hashTable[..], maxRetainerSetSize, nextId)
    }

    /** A pointer to rs_MANY or to an object of the table. */
    ghost predicate Points(p: Pointer)
      reads this, hashTable
    {
      p.To? ==> hashTable.Length == HASH_TABLE_SIZE && InTable(hashTable[..], p.rs)
    }

    /** initializeAllRetainerSet(); id 1 is rs_MANY's. */
    constructor (limit: nat)
      requires limit >= 1
      ensures Valid() && fresh(hashTable) && maxRetainerSetSize == limit
      ensures forall x: Object :: !Points(To(x))
    {
      maxRetainerSetSize := limit;
      hashTable := new seq<Object>[HASH_TABLE_SIZE](_ => []);
      nextId := 2;
    }

    /** A new object is filed at the head of its chain. */
    method File(key: nat, element: seq<Retainer>) returns (x: Object)
      requires Valid() && key == Key(element)
      requires Increasing(element) && 1 <= |element| <= maxRetainerSetSize
      requires forall y <- hashTable[Hash(key)] :: y.element != element
      modifies this, hashTable
      ensures Valid() && hashTable == old(hashTable)
      ensures x.element == element && Points(To(x))
      ensures forall y: Object :: old(Points(To(y))) ==> Points(To(y))
      ensures forall y: Object :: Points(To(y)) ==> old(Points(To(y))) || y == x
    {
      x := Set(key, nextId, element);
      Filing(hashTable[..], maxRetainerSetSize, nextId, x);
      hide TableOk, Key, Increasing;
      ghost var was := hashTable[..];
      nextId := nextId + 1;
      hashTable[Hash(key)] := [x] + hashTable[Hash(key)];
      assert hashTable[..] == was[Hash(key) := [x] + was[Hash(key)]];
    }

    /** singleton(): the object for {r}, found or created. */
    method Singleton(r: Retainer) returns (p: Pointer)
      requires Valid() && r < WORD
      modifies this, hashTable
      ensures Valid() && hashTable == old(hashTable)
      ensures Points(p) && p.To? && p.rs.element == [r] && Value(p) == Retainers.Singleton(r)
      ensures forall y: Object :: old(Points(To(y))) ==> Points(To(y))
      ensures forall y: Object :: Points(To(y)) ==> old(Points(To(y))) || To(y) == p
    {
      var hk := r;
      assert [r][1..] == [] && Sum([r]) == r + Sum([]);
      var chain := hashTable[Hash(hk)];
      var k := 0;
      while k < |chain|
        invariant k <= |chain|
        invariant forall i :: 0 <= i < k ==> chain[i].element != [r]
      {
        if |chain[k].element| == 1 && chain[k].element[0] == r {
          assert chain[k].element == [r];
          InChain(hashTable[..], maxRetainerSetSize, nextId, Hash(hk), k);
          return To(chain[k]);
        }
        k := k + 1;
      }
      var x := File(hk, [r]);
      p := To(x);
    }

    /** Whether the elements ns are those of es with r at place nl. */
    method IsExtension(es: seq<Retainer>, nl: nat, r: Retainer, ns: seq<Retainer>) returns (same: bool)
      requires nl <= |es|
      ensures same <==> ns == es[..nl] + [r] + es[nl..]
    {
      if |es| + 1 != |ns| {
        return false;
      }
      ghost var t := es[..nl] + [r] + es[nl..];
      var i := 0;
      while i < nl
        invariant i <= nl && ns[..i] == es[..i]
      {
        if es[i] != ns[i] {
          assert ns[i] != t[i];
          return false;
        }
        i := i + 1;
      }
      if r != ns[i] {
        assert ns[i] != t[i];
        return false;
      }
      while i < |es|
        invariant nl <= i <= |es| && ns[..i + 1] == es[..nl] + [r] + es[nl..i]
      {
        if es[i] != ns[i + 1] {
          assert ns[i + 1] != t[i + 1];
          return false;
        }
        assert ns[..i + 2] == ns[..i + 1] + [es[i]] && es[nl..i + 1] == es[nl..i] + [es[i]];
        i := i + 1;
      }
      assert ns[..i + 1] == ns && es[nl..i] == es[nl..];
      return true;
    }

    /** The elements of es with r put in at place nl, copied one by one. */
    method Extend(es: seq<Retainer>, nl: nat, r: Retainer) returns (element: array<Retainer>)
      requires nl <= |es|
      ensures fresh(element) && element[..] == es[..nl] + [r] + es[nl..]
    {
      element := new Retainer[|es| + 1];
      var i := 0;
      while i < nl
        invariant i <= nl && element[..i] == es[..i]
      {
        element[i] := es[i];
        i := i + 1;
      }
      element[i] := r;
      while i < |es|
        invariant nl <= i <= |es| && element[..i + 1] == es[..nl] + [r] + es[nl..i]
      {
        element[i + 1] := es[i];
        assert element[..i + 2] == element[..i + 1] + [es[i]] && es[nl..i + 1] == es[nl..i] + [es[i]];
        i := i + 1;
      }
      assert element[..i + 1] == element[..] && es[nl..i] == es[nl..];
    }

    /** addElement(): the object for the set with r added, found or created; rs_MANY at the size
        limit. r must not be a member. */
    method AddElement(r: Retainer, rs: Pointer) returns (p: Pointer)
      requires Valid() && Points(rs) && r < WORD && (rs.To? ==> !Retainers.IsMember(r, Value(rs)))
      modifies this, hashTable
      ensures Valid() && hashTable == old(hashTable)
      ensures Points(p) && Value(p) == Retainers.AddElement(r, Value(rs), maxRetainerSetSize)
      ensures p.RsMany? <==> rs.RsMany? || |rs.rs.element| == maxRetainerSetSize
      ensures p.To? ==> forall q :: q in p.rs.element <==> q == r || q in rs.rs.element
      ensures forall y: Object :: old(Points(To(y))) ==> Points(To(y))
      ensures forall y: Object :: Points(To(y)) ==> old(Points(To(y))) || To(y) == p
    {
      hide Insert, Elements, Key, Increasing, TableOk, ObjectOk, Value, Retainers.AddElement, Retainers.IsMember, InTable;
      ManyStays(r, maxRetainerSetSize);
      if rs.RsMany? {
        return RsMany;
      }
      var es := rs.rs.element;
      PointsOk(hashTable[..], maxRetainerSetSize, nextId, rs.rs);
      SetGrows(r, rs.rs, maxRetainerSetSize);
      if |es| == maxRetainerSetSize {
        return RsMany;
      }
      var nl := 0;
      while nl < |es| && !(r < es[nl])
        invariant nl <= |es| && forall i :: 0 <= i < nl ==> es[i] <= r
      {
        nl := nl + 1;
      }
      Added(r, rs.rs, nl, maxRetainerSetSize, nextId);
      var hk := (r + rs.rs.hashKey) % WORD;
      p := Seek(r, es, nl, hk);
      if p.RsMany? {
        var element := Extend(es, nl, r);
        var x := File(hk, element[..]);
        p := To(x);
      }
    }

    /** The search of addElement(): rs_MANY stands for not found. */
    method Seek(r: Retainer, es: seq<Retainer>, nl: nat, hk: nat) returns (p: Pointer)
      requires Valid() && nl <= |es|
      ensures Points(p)
      ensures p.To? ==> p.rs.element == es[..nl] + [r] + es[nl..]
      ensures p.RsMany? ==> forall y <- hashTable[Hash(hk)] :: y.element != es[..nl] + [r] + es[nl..]
    {
      var chain := hashTable[Hash(hk)];
      var k := 0;
      while k < |chain|
        invariant k <= |chain|
        invariant forall i :: 0 <= i < k ==> chain[i].element != es[..nl] + [r] + es[nl..]
      {
        var same := IsExtension(es, nl, r, chain[k].element);
        if same {
          InChain(hashTable[..], maxRetainerSetSize, nextId, Hash(hk), k);
          return To(chain[k]);
        }
        k := k + 1;
      }
      p := RsMany;
    }

    /** isMember(): linear search in small sets, binary search in large ones. */
    method IsMember(r: Retainer, rs: Pointer) returns (b: bool)
      requires Valid() && Points(rs)
      ensures b <==> Retainers.IsMember(r, Value(rs))
      ensures b <==> rs.RsMany? || r in rs.rs.element
    {
      if rs.RsMany? {
        return true;
      }
      var es := rs.rs.element;
      PointsOk(hashTable[..], maxRetainerSetSize, nextId, rs.rs);
      if |es| < BINARY_SEARCH_THRESHOLD {
        var i := 0;
        while i < |es|
          invariant i <= |es| && r !in es[..i]
        {
          if r == es[i] {
            return true;
          } else if r < es[i] {
            assert forall j :: i <= j < |es| ==> r < es[j];
            return false;
          }
          i := i + 1;
        }
      } else {
        var left, right: int := 0, |es| - 1;
        while left <= right
          invariant 0 <= left <= right + 1 <= |es|
          invariant forall j :: 0 <= j < left ==> es[j] < r
          invariant forall j :: right < j < |es| ==> r < es[j]
          decreases right - left
        {
          var i := (left + right) / 2;
          if r == es[i] {
            return true;
          } else if r < es[i] {
            right := i - 1;
          } else {
            left := i + 1;
          }
        }
      }
      return false;
    }
  }

  lemma PointsOk(table: seq<seq<Object>>, limit: nat, nextId: nat, x: Object)
    requires TableOk(table, limit, nextId) && InTable(table, x)
    ensures ObjectOk(x, limit, nextId) && |Elements(x.element)| == |x.element| <= limit
  {
    assert Filed(table[Hash(x.hashKey)], Hash(x.hashKey), limit, nextId);
    ElementsCount(x.element);
  }

  lemma ManyStays(r: Retainer, limit: nat)
    ensures Value(RsMany) == Retainers.AddElement(r, Value(RsMany), limit) == Many
  {
  }

  /** The two cases of adding to a set of the table. */
  lemma SetGrows(r: Retainer, x: Object, limit: nat)
    requires |Elements(x.element)| == |x.element|
    ensures !Retainers.IsMember(r, Value(To(x))) ==> r !in x.element
    ensures |x.element| == limit ==> Retainers.AddElement(r, Value(To(x)), limit) == Many
  {
  }

  /** What addElement() goes by: the new set, sorted, its key and its value. */
  lemma Added(r: Retainer, x: Object, nl: nat, limit: nat, nextId: nat)
    requires ObjectOk(x, limit, nextId) && r !in x.element && |x.element| < limit && nl <= |x.element|
    requires (forall i :: 0 <= i < nl ==> x.element[i] <= r) && (nl < |x.element| ==> r < x.element[nl])
    ensures Insert(r, x.element) == x.element[..nl] + [r] + x.element[nl..]
    ensures Increasing(Insert(r, x.element)) && 1 <= |Insert(r, x.element)| <= limit
    ensures Key(Insert(r, x.element)) == (r + x.hashKey) % WORD
    ensures forall y: Object :: y.element == Insert(r, x.element) ==>
              Value(To(y)) == Retainers.AddElement(r, Value(To(x)), limit)
  {
    hide Sum, Position, Elements, Key, Increasing;
    var es := x.element;
    PositionSplits(r, es, nl);
    InsertKeeps(r, es);
    KeyAdds(r, es);
    ElementsCount(es);
    assert Position(r, es) == nl;
  }

  /** The key of a set does not depend on the order in which its elements were added. */
  lemma KeyAdds(r: Retainer, s: seq<Retainer>)
    requires Increasing(s) && r !in s
    ensures Key(Insert(r, s)) == (r + Key(s)) % WORD
  {
    InsertKeeps(r, s);
    hide Insert, Sum;
    assert Sum(s) == Sum(s) / WORD * WORD + Sum(s) % WORD;
  }

  /** Below the limit, adding two retainers in either order leads to the same object. */
  lemma OrderIsIrrelevant(table: seq<seq<Object>>, limit: nat, nextId: nat, q: Retainer, r: Retainer, s: RSet,
                          x: Pointer, y: Pointer)
    requires TableOk(table, limit, nextId) && s.Fin?
    requires x.To? ==> InTable(table, x.rs)
    requires y.To? ==> InTable(table, y.rs)
    requires q !in s.elems && r !in s.elems && q != r
    requires Value(x) == Retainers.AddElement(q, Retainers.AddElement(r, s, limit), limit)
    requires Value(y) == Retainers.AddElement(r, Retainers.AddElement(q, s, limit), limit)
    ensures x == y
  {
    assert |s.elems + {q}| == |s.elems| + 1 == |s.elems + {r}|;
    assert s.elems + {r} + {q} == s.elems + {q} + {r};
    if x.To? && y.To? {
      Canonical(table, limit, nextId, x.rs, y.rs);
    }
  }
}
