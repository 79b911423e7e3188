/**
 * The derived view `sortedData`: the rows as supplied when no sort key is set,
 * otherwise a copy sorted by the comparator of the source, with a stable sort
 * (as `Array.prototype.sort` is required to be). The sort is modelled as a stable
 * insertion sort; the lemmas show that its result is a permutation of the input,
 * ordered in the chosen direction, keeps tied rows in input order, and is the
 * only arrangement with these properties.
 */
module SortView {
  import opened Wrappers
  import opened Values
  import opened Rows

  datatype SortOrder = Asc | Desc

  /** The comparator given to `sort`: negative keeps `a` first, positive puts `b` first, 0 on a tie. */
  function Compare(a: Row, b: Row, key: string, order: SortOrder): int
  {
    var x, y := Field(a, key), Field(b, key);
    if Less(x, y) then (if order == Asc then -1 else 1)
    else if Less(y, x) then (if order == Asc then 1 else -1)
    else 0
  }

  /** `a` may come before `b` in direction `order`: ascending, `b`'s value is not below `a`'s; descending, not above. */
  ghost predicate InOrder(a: Row, b: Row, key: string, order: SortOrder)
  {
    if order == Asc then !Less(Field(b, key), Field(a, key))
    else !Less(Field(a, key), Field(b, key))
  }

  /** Every earlier row may come before every later one. */
  ghost predicate Sorted(s: seq<Row>, key: string, order: SortOrder)
  {
    forall i, j :: 0 <= i < j < |s| ==> InOrder(s[i], s[j], key, order)
  }

  /** The rows of `s` whose `key` property is `v`, in the order of `s`. */
  function WithValue(s: seq<Row>, key: string, v: Option<Value>): seq<Row>
  {
    if s == [] then []
    else (if Field(s[0], key) == v then [s[0]] else []) + WithValue(s[1..], key, v)
  }

  /** The rows kept are exactly the rows of `s` holding `v`. */
  lemma {:induction false} WithValueMembers(s: seq<Row>, key: string, v: Option<Value>, x: Row)
    ensures x in WithValue(s, key, v) <==> x in s && Field(x, key) == v
  {
    if s != [] {
      WithValueMembers(s[1..], key, v, x);
      assert s == [s[0]] + s[1..];
    }
  }

  lemma WithValueCons(y: Row, t: seq<Row>, key: string, v: Option<Value>)
    ensures WithValue([y] + t, key, v) == (if Field(y, key) == v then [y] else []) + WithValue(t, key, v)
  {
    assert ([y] + t)[1..] == t;
  }

  /** The comparator agrees with the direction, and never separates two equal values. */
  lemma CompareMeaning(a: Row, b: Row, key: string, order: SortOrder)
    ensures Compare(a, b, key, order) <= 0 <==> InOrder(a, b, key, order)
    ensures Compare(a, b, key, order) > 0 ==> InOrder(b, a, key, order)
    ensures Compare(a, b, key, order) > 0 ==> Field(a, key) != Field(b, key)
  {
    LessAsymmetric(Field(a, key), Field(b, key));
    LessIrreflexive(Field(a, key));
  }

  lemma InOrderTransitive(a: Row, b: Row, c: Row, key: string, order: SortOrder)
    requires KindOf(Field(a, key)) == KindOf(Field(b, key)) == KindOf(Field(c, key))
    requires InOrder(a, b, key, order) && InOrder(b, c, key, order)
    ensures InOrder(a, c, key, order)
  {
    var x, y, z := Field(a, key), Field(b, key), Field(c, key);
    if order == Asc {
      LessTotalOnKind(x, y);
      if Less(z, x) && Less(x, y) {
        LessTransitive(z, x, y);
      }
    } else {
      LessTotalOnKind(y, z);
      if Less(x, z) && Less(z, y) {
        LessTransitive(x, z, y);
      }
    }
  }

  /** Puts `x` before the first row it does not sort after; `x` stands before the rows it ties with. */
  function Insert(x: Row, s: seq<Row>, key: string, order: SortOrder): seq<Row>
  {
    if s == [] then [x]
    else if Compare(x, s[0], key, order) <= 0 then [x] + s
    else [s[0]] + Insert(x, s[1..], key, order)
  }

  /** A stable sort by the comparator: each row is inserted into the sorted rest of the input. */
  function StableSort(s: seq<Row>, key: string, order: SortOrder): seq<Row>
  {
    if s == [] then []
    else Insert(s[0], StableSort(s[1..], key, order), key, order)
  }

  lemma {:induction false} InsertPermutes(x: Row, s: seq<Row>, key: string, order: SortOrder)
    ensures multiset(Insert(x, s, key, order)) == multiset(s) + multiset{x}
  {
    if s != [] && Compare(x, s[0], key, order) > 0 {
      InsertPermutes(x, s[1..], key, order);
      assert s == [s[0]] + s[1..];
    }
  }

  /** The sorted copy holds the same rows as the input, each as often. */
  lemma {:induction false} StableSortPermutes(s: seq<Row>, key: string, order: SortOrder)
    ensures multiset(StableSort(s, key, order)) == multiset(s)
  {
    if s != [] {
      StableSortPermutes(s[1..], key, order);
      InsertPermutes(s[0], StableSort(s[1..], key, order), key, order);
      assert s == [s[0]] + s[1..];
    }
  }

  /**
   * `sortedData`: the input itself when the sort key is unset or the empty string
   * (both falsy), otherwise the stable sort of a copy on the property named by the key.
   */
  function DerivedView(data: seq<Row>, sortKey: Option<string>, order: SortOrder): (r: seq<Row>)
    ensures multiset(r) == multiset(data) && |r| == |data|
    ensures sortKey.None? || sortKey == Some("") ==> r == data
  {
    if sortKey.None? || sortKey.value == "" then data
    else
      var r := StableSort(data, sortKey.value, order);
      StableSortPermutes(data, sortKey.value, order);
      assert |multiset(r)| == |r| && |multiset(data)| == |data|;
      r
  }

  lemma AllKindPermutation(s: seq<Row>, t: seq<Row>, key: string, kind: Kind)
    requires multiset(s) == multiset(t) && AllKind(s, key, kind)
    ensures AllKind(t, key, kind)
  {
    forall r | r in t ensures KindOf(Field(r, key)) == kind {
      assert r in multiset(t);
    }
  }

  /** A row that may come before every row of a sorted sequence can be put in front of it. */
  lemma SortedCons(y: Row, t: seq<Row>, key: string, order: SortOrder)
    requires Sorted(t, key, order)
    requires forall z :: z in t ==> InOrder(y, z, key, order)
    ensures Sorted([y] + t, key, order)
  {
    var r := [y] + t;
    forall i, j | 0 <= i < j < |r| ensures InOrder(r[i], r[j], key, order) {
      assert r[j] == t[j - 1];
      if i > 0 {
        assert r[i] == t[i - 1];
      }
    }
  }

  /** The head of a sorted sequence may come before every other row, and the rest is sorted. */
  lemma SortedTail(s: seq<Row>, key: string, order: SortOrder)
    requires s != [] && Sorted(s, key, order)
    ensures Sorted(s[1..], key, order)
    ensures forall z :: z in s[1..] ==> InOrder(s[0], z, key, order)
  {
    forall z | z in s[1..] ensures InOrder(s[0], z, key, order) {
      var k :| 0 <= k < |s[1..]| && s[1..][k] == z;
      assert s[k + 1] == z;
    }
  }

  lemma {:induction false} InsertSorted(x: Row, s: seq<Row>, key: string, order: SortOrder, kind: Kind)
    requires Sorted(s, key, order)
    requires AllKind(s, key, kind) && KindOf(Field(x, key)) == kind
    ensures Sorted(Insert(x, s, key, order), key, order)
  {
    if s == [] {
    } else if Compare(x, s[0], key, order) <= 0 {
      CompareMeaning(x, s[0], key, order);
      SortedTail(s, key, order);
      forall z | z in s ensures InOrder(x, z, key, order) {
        if z != s[0] {
          assert z in s[1..] by { assert s == [s[0]] + s[1..]; }
          InOrderTransitive(x, s[0], z, key, order);
        }
      }
      SortedCons(x, s, key, order);
    } else {
      var t := Insert(x, s[1..], key, order);
      SortedTail(s, key, order);
      InsertSorted(x, s[1..], key, order, kind);
      InsertPermutes(x, s[1..], key, order);
      forall z | z in t ensures InOrder(s[0], z, key, order) {
        assert z in multiset(t);
        if z == x {
          CompareMeaning(x, s[0], key, order);
        } else {
          assert z in multiset(s[1..]);
        }
      }
      SortedCons(s[0], t, key, order);
    }
  }

  lemma {:induction false} StableSortSorted(s: seq<Row>, key: string, order: SortOrder, kind: Kind)
    requires AllKind(s, key, kind)
    ensures Sorted(StableSort(s, key, order), key, order)
  {
    if s != [] {
      var t := StableSort(s[1..], key, order);
      StableSortSorted(s[1..], key, order, kind);
      StableSortPermutes(s[1..], key, order);
      AllKindPermutation(s[1..], t, key, kind);
      InsertSorted(s[0], t, key, order, kind);
    }
  }

  lemma {:induction false} InsertWithValue(x: Row, s: seq<Row>, key: string, order: SortOrder, v: Option<Value>)
    ensures WithValue(Insert(x, s, key, order), key, v)
         == (if Field(x, key) == v then [x] else []) + WithValue(s, key, v)
  {
    if s == [] {
    } else if Compare(x, s[0], key, order) <= 0 {
      WithValueCons(x, s, key, v);
    } else {
      var t := Insert(x, s[1..], key, order);
      var ph := if Field(s[0], key) == v then [s[0]] else [];
      var px := if Field(x, key) == v then [x] else [];
      CompareMeaning(x, s[0], key, order);
      assert ph == [] || px == [];
      calc {
        WithValue(Insert(x, s, key, order), key, v);
        { WithValueCons(s[0], t, key, v); }
        ph + WithValue(t, key, v);
        { InsertWithValue(x, s[1..], key, order, v); }
        ph + (px + WithValue(s[1..], key, v));
        px + (ph + WithValue(s[1..], key, v));
        { WithValueCons(s[0], s[1..], key, v); assert s == [s[0]] + s[1..]; }
        px + WithValue(s, key, v);
      }
    }
  }

  /** Stability: for every value, the rows holding it appear in the sorted copy in input order. */
  lemma {:induction false} StableSortKeepsTies(s: seq<Row>, key: string, order: SortOrder, v: Option<Value>)
    ensures WithValue(StableSort(s, key, order), key, v) == WithValue(s, key, v)
  {
    if s != [] {
      StableSortKeepsTies(s[1..], key, order, v);
      InsertWithValue(s[0], StableSort(s[1..], key, order), key, order, v);
    }
  }

  lemma {:induction false} WithValueOfUniform(s: seq<Row>, key: string, v: Option<Value>)
    requires forall r :: r in s ==> Field(r, key) == v
    ensures WithValue(s, key, v) == s
  {
    if s != [] {
      WithValueOfUniform(s[1..], key, v);
      assert s == [s[0]] + s[1..];
    }
  }

  /** Splitting the rows with a given value at the head of any non-empty sequence. */
  lemma WithValueHead(s: seq<Row>, key: string)
    requires s != []
    ensures WithValue(s, key, Field(s[0], key)) == [s[0]] + WithValue(s[1..], key, Field(s[0], key))
    ensures forall v :: v != Field(s[0], key) ==> WithValue(s, key, v) == WithValue(s[1..], key, v)
  {
  }

  /** The head of a sorted sequence may come before any of its rows. */
  lemma SortedHeadFirst(s: seq<Row>, z: Row, key: string, order: SortOrder)
    requires s != [] && Sorted(s, key, order) && z in s
    ensures InOrder(s[0], z, key, order)
  {
    if z == s[0] {
      LessIrreflexive(Field(z, key));
    } else {
      SortedTail(s, key, order);
      assert z in s[1..] by { assert s == [s[0]] + s[1..]; }
    }
  }

  /**
   * Two sorted arrangements that agree on every value's rows start with rows of the
   * same value.
   */
  lemma SortedStableSameHeadValue(p: seq<Row>, q: seq<Row>, key: string, order: SortOrder, kind: Kind)
    requires p != [] && q != []
    requires AllKind(p, key, kind) && AllKind(q, key, kind)
    requires Sorted(p, key, order) && Sorted(q, key, order)
    requires forall v :: WithValue(p, key, v) == WithValue(q, key, v)
    ensures Field(p[0], key) == Field(q[0], key)
  {
    var a, b := p[0], q[0];
    var va, vb := Field(a, key), Field(b, key);
    WithValueMembers(p, key, va, a);
    WithValueMembers(q, key, va, a);
    WithValueMembers(q, key, vb, b);
    WithValueMembers(p, key, vb, b);
    SortedHeadFirst(q, a, key, order);
    SortedHeadFirst(p, b, key, order);
    LessTotalOnKind(va, vb);
  }

  /** ... and so start with the same row, and still agree once that row is dropped. */
  lemma SortedStableSameHead(p: seq<Row>, q: seq<Row>, key: string, order: SortOrder, kind: Kind)
    requires p != [] && q != []
    requires AllKind(p, key, kind) && AllKind(q, key, kind)
    requires Sorted(p, key, order) && Sorted(q, key, order)
    requires forall v :: WithValue(p, key, v) == WithValue(q, key, v)
    ensures p[0] == q[0]
    ensures forall v :: WithValue(p[1..], key, v) == WithValue(q[1..], key, v)
  {
    SortedStableSameHeadValue(p, q, key, order, kind);
    var a, b, va := p[0], q[0], Field(p[0], key);
    var tp, tq := WithValue(p[1..], key, va), WithValue(q[1..], key, va);
    assert [a] + tp == [b] + tq by {
      WithValueHead(p, key);
      WithValueHead(q, key);
      assert WithValue(p, key, va) == WithValue(q, key, va);
    }
    assert a == b && tp == tq by {
      assert ([a] + tp)[0] == a && ([a] + tp)[1..] == tp;
      assert ([b] + tq)[0] == b && ([b] + tq)[1..] == tq;
    }
    forall v ensures WithValue(p[1..], key, v) == WithValue(q[1..], key, v) {
      if v != va {
        WithValueHead(p, key);
        WithValueHead(q, key);
        assert WithValue(p, key, v) == WithValue(q, key, v);
      }
    }
  }

  /**
   * The sorted, stable arrangement is unique: two arrangements sorted in the same
   * direction, over values of one kind, that list the rows of every value in the same
   * order are equal.
   */
  lemma {:induction false} SortedStableUnique(p: seq<Row>, q: seq<Row>, key: string, order: SortOrder, kind: Kind)
    requires AllKind(p, key, kind) && AllKind(q, key, kind)
    requires Sorted(p, key, order) && Sorted(q, key, order)
    requires forall v :: WithValue(p, key, v) == WithValue(q, key, v)
    ensures p == q
    decreases |p|
  {
    if p == [] || q == [] {
      if p != [] {
        WithValueHead(p, key);
      } else if q != [] {
        WithValueHead(q, key);
      }
    } else {
      SortedStableSameHead(p, q, key, order, kind);
      SortedTail(p, key, order);
      SortedTail(q, key, order);
      assert AllKind(p[1..], key, kind) && AllKind(q[1..], key, kind) by {
        assert forall z :: z in p[1..] ==> z in p;
        assert forall z :: z in q[1..] ==> z in q;
      }
      SortedStableUnique(p[1..], q[1..], key, order, kind);
      assert p == [p[0]] + p[1..] && q == [q[0]] + q[1..];
    }
  }

  /** With a sort key, the view is ordered in the chosen direction when the key's values share one kind. */
  lemma ViewOrdered(data: seq<Row>, key: string, order: SortOrder, kind: Kind)
    requires key != "" && AllKind(data, key, kind)
    ensures Sorted(DerivedView(data, Some(key), order), key, order)
  {
    StableSortSorted(data, key, order, kind);
  }

  /** With a sort key, rows with equal values keep their input order, in both directions. */
  lemma ViewStable(data: seq<Row>, key: string, order: SortOrder)
    ensures forall v :: WithValue(DerivedView(data, Some(key), order), key, v) == WithValue(data, key, v)
  {
    forall v ensures WithValue(DerivedView(data, Some(key), order), key, v) == WithValue(data, key, v) {
      if key != "" {
        StableSortKeepsTies(data, key, order, v);
      }
    }
  }

  /**
   * Any arrangement of the input that is sorted in the chosen direction and keeps tied
   * rows in input order is the view: the stable sort leaves no choice.
   */
  lemma ViewIsTheStableSort(data: seq<Row>, r: seq<Row>, key: string, order: SortOrder, kind: Kind)
    requires key != "" && AllKind(data, key, kind)
    requires Sorted(r, key, order)
    requires forall v :: WithValue(r, key, v) == WithValue(data, key, v)
    ensures r == DerivedView(data, Some(key), order)
  {
    var view := DerivedView(data, Some(key), order);
    forall x | x in r ensures KindOf(Field(x, key)) == kind {
      WithValueMembers(r, key, Field(x, key), x);
      WithValueMembers(data, key, Field(x, key), x);
    }
    ViewOrdered(data, key, order, kind);
    ViewStable(data, key, order);
    AllKindPermutation(data, view, key, kind);
    SortedStableUnique(r, view, key, order, kind);
  }

  /**
   * When no row has the property the key names (for instance a column whose `key`
   * differs from its `dataIndex`), every comparison is a tie and the view is the input.
   */
  lemma ViewOfMissingKey(data: seq<Row>, key: string, order: SortOrder)
    requires AllKind(data, key, Missing)
    ensures DerivedView(data, Some(key), order) == data
  {
    var view := DerivedView(data, Some(key), order);
    AllKindPermutation(data, view, key, Missing);
    WithValueOfUniform(data, key, None);
    WithValueOfUniform(view, key, None);
    ViewStable(data, key, order);
  }
}
