/**
 * Row selection: the set of selected ids, the toggle that flips one id's membership,
 * and the payload handed to `onRowSelect` — the rows of the supplied data whose id is
 * selected, in the order of the data.
 */
module Selection {
  import opened Rows

  /** The set after toggling `id`: removed when present, added when absent. */
  function Toggled(selected: set<Id>, id: Id): (r: set<Id>)
    ensures id in r <==> id !in selected
    ensures forall other :: other != id ==> (other in r <==> other in selected)
  {
    if id in selected then selected - {id} else selected + {id}
  }

  /** Toggling the same id twice restores the selection. */
  lemma ToggleTwice(selected: set<Id>, id: Id)
    ensures Toggled(Toggled(selected, id), id) == selected
  {
  }

  /**
   * `a` occurs in `b` in order, possibly with gaps. Matching each element of `a`
   * with its earliest occurrence in `b` finds such an embedding whenever one exists.
   */
  predicate IsSubsequence(a: seq<Row>, b: seq<Row>)
    decreases |b|
  {
    if a == [] then true
    else if b == [] then false
    else if a[0] == b[0] then IsSubsequence(a[1..], b[1..])
    else IsSubsequence(a, b[1..])
  }

  /** `data.filter(row => selected.has(row.id))`: the payload of `onRowSelect`. */
  function SelectedRows(data: seq<Row>, selected: set<Id>): seq<Row>
  {
    if data == [] then []
    else (if data[0].id in selected then [data[0]] else []) + SelectedRows(data[1..], selected)
  }

  /** The payload holds every row of `data` whose id is selected, as often as `data` does, and nothing else. */
  lemma {:induction false} SelectedRowsContents(data: seq<Row>, selected: set<Id>)
    ensures forall x :: multiset(SelectedRows(data, selected))[x] == if x.id in selected then multiset(data)[x] else 0
  {
    if data != [] {
      SelectedRowsContents(data[1..], selected);
      assert data == [data[0]] + data[1..];
    }
  }

  /** The payload lists the selected rows in the order of `data`. */
  lemma {:induction false} SelectedRowsInDataOrder(data: seq<Row>, selected: set<Id>)
    ensures IsSubsequence(SelectedRows(data, selected), data)
  {
    if data != [] {
      var rest := SelectedRows(data[1..], selected);
      SelectedRowsInDataOrder(data[1..], selected);
      SelectedRowsContents(data[1..], selected);
      if data[0].id in selected {
        assert ([data[0]] + rest)[1..] == rest;
      } else {
        assert SelectedRows(data, selected) == rest;
        if rest != [] {
          assert rest[0] in multiset(rest);
        }
      }
    }
  }

  lemma DistinctIdsTail(data: seq<Row>)
    requires data != [] && DistinctIds(data)
    ensures DistinctIds(data[1..])
    ensures forall x :: x in data[1..] ==> x.id != data[0].id
  {
    forall i, j | 0 <= i < j < |data[1..]| ensures data[1..][i].id != data[1..][j].id {
      assert data[1..][i] == data[i + 1] && data[1..][j] == data[j + 1];
    }
    forall x | x in data[1..] ensures x.id != data[0].id {
      var k :| 0 <= k < |data[1..]| && data[1..][k] == x;
      assert data[k + 1] == x;
    }
  }

  lemma DistinctIdsCons(y: Row, t: seq<Row>)
    requires DistinctIds(t) && forall z :: z in t ==> z.id != y.id
    ensures DistinctIds([y] + t)
  {
    var r := [y] + t;
    forall i, j | 0 <= i < j < |r| ensures r[i].id != r[j].id {
      assert r[j] == t[j - 1] && r[j] in t;
      if i > 0 {
        assert r[i] == t[i - 1];
      }
    }
  }

  /** When `data` repeats no id, neither does the payload. */
  lemma {:induction false} SelectedRowsDistinct(data: seq<Row>, selected: set<Id>)
    requires DistinctIds(data)
    ensures DistinctIds(SelectedRows(data, selected))
  {
    if data != [] {
      var rest := SelectedRows(data[1..], selected);
      DistinctIdsTail(data);
      SelectedRowsDistinct(data[1..], selected);
      SelectedRowsContents(data[1..], selected);
      if data[0].id in selected {
        forall z | z in rest ensures z.id != data[0].id {
          assert z in multiset(rest);
          assert z in multiset(data[1..]);
        }
        DistinctIdsCons(data[0], rest);
      }
    }
  }
}
