/**
 * The `DataTable` component: props supplied by the caller on each render, and the
 * state it keeps between renders (sort key, sort direction, selected ids), changed
 * only by its two handlers, `handleSort` and `toggleRow`.
 */
module Table {
  import opened Wrappers
  import opened Rows
  import opened SortView
  import opened Selection

  /** The sort state: the column key driving the order, if any, and the direction. */
  datatype SortState = SortState(key: Option<string>, order: SortOrder)

  /** What a render shows: the loading text, the empty text, or the table itself. */
  datatype Screen = Loading | Empty | Populated

  /** The transition made by `handleSort(clicked)`. */
  function NextSort(s: SortState, clicked: string): (t: SortState)
    ensures t.key == Some(clicked)
    ensures t.order == Desc <==> s.key == Some(clicked) && s.order == Asc
  {
    SortState(Some(clicked), if s.key == Some(clicked) && s.order == Asc then Desc else Asc)
  }

  /** The sort state after `n` clicks on the same column. */
  function Clicks(s: SortState, clicked: string, n: nat): SortState
  {
    if n == 0 then s else NextSort(Clicks(s, clicked, n - 1), clicked)
  }

  /**
   * Repeated clicks on one column never return to unsorted: from the first click on,
   * the key stays put and the direction alternates, odd clicks giving the first click's direction.
   */
  lemma {:induction false} RepeatedClicksAlternate(s: SortState, clicked: string, n: nat)
    requires n >= 1
    ensures Clicks(s, clicked, n).key == Some(clicked)
    ensures Clicks(s, clicked, n).order == NextSort(s, clicked).order <==> n % 2 == 1
  {
    if n > 1 {
      RepeatedClicksAlternate(s, clicked, n - 1);
    }
  }

  /** From the initial state, three clicks on a column give ascending, descending, ascending. */
  lemma ThreeClicksFromUnsorted(clicked: string)
    ensures Clicks(SortState(None, Asc), clicked, 1) == SortState(Some(clicked), Asc)
    ensures Clicks(SortState(None, Asc), clicked, 2) == SortState(Some(clicked), Desc)
    ensures Clicks(SortState(None, Asc), clicked, 3) == SortState(Some(clicked), Asc)
  {
  }

  /** The guards at the top of the render: loading wins over empty data. */
  function RenderState(loading: bool, data: seq<Row>): (s: Screen)
    ensures loading ==> s == Loading
    ensures s == Empty <==> !loading && |data| == 0
    ensures s == Populated <==> !loading && |data| > 0
  {
    if loading then Loading
    else if |data| == 0 then Empty
    else Populated
  }

  /**
   * The view lists the same selected rows as the payload, but the payload keeps
   * the order of the data whatever the sort.
   */
  lemma SelectionSameRowsInView(data: seq<Row>, sortKey: Option<string>, order: SortOrder, selected: set<Id>)
    ensures multiset(SelectedRows(DerivedView(data, sortKey, order), selected)) == multiset(SelectedRows(data, selected))
  {
    var view := DerivedView(data, sortKey, order);
    SelectedRowsContents(view, selected);
    SelectedRowsContents(data, selected);
    assert forall x :: multiset(SelectedRows(view, selected))[x] == multiset(SelectedRows(data, selected))[x];
  }

  class DataTable {
    // Props, supplied by the caller on every render.
    var data: seq<Row>
    var columns: seq<Column>
    var loading: bool
    var selectable: bool
    var hasOnRowSelect: bool

    // State kept between renders.
    var sortKey: Option<string>
    var sortOrder: SortOrder
    var selected: set<Id>

    /** The first render: unsorted, ascending, nothing selected. */
    constructor (data: seq<Row>, columns: seq<Column>, loading: bool, selectable: bool, hasOnRowSelect: bool)
      ensures this.data == data && this.columns == columns && this.loading == loading
      ensures this.selectable == selectable && this.hasOnRowSelect == hasOnRowSelect
      ensures sortKey == None && sortOrder == Asc && selected == {}
    {
      this.data := data;
      this.columns := columns;
      this.loading := loading;
      this.selectable := selectable;
      this.hasOnRowSelect := hasOnRowSelect;
      sortKey := None;
      sortOrder := Asc;
      selected := {};
    }

    function Sort(): SortState
      reads this
    {
      SortState(sortKey, sortOrder)
    }

    /** `sortedData` for the current props and state. */
    function View(): seq<Row>
      reads this
    {
      DerivedView(data, sortKey, sortOrder)
    }

    function Shown(): Screen
      reads this
    {
      RenderState(loading, data)
    }

    /**
     * A later render with new props. The state carries over untouched: in particular
     * selected ids are kept even when their rows are no longer in the data.
     */
    method Rerender(data: seq<Row>, columns: seq<Column>, loading: bool, selectable: bool, hasOnRowSelect: bool)
      modifies this
      ensures this.data == data && this.columns == columns && this.loading == loading
      ensures this.selectable == selectable && this.hasOnRowSelect == hasOnRowSelect
      ensures Sort() == old(Sort()) && selected == old(selected)
    {
      this.data := data;
      this.columns := columns;
      this.loading := loading;
      this.selectable := selectable;
      this.hasOnRowSelect := hasOnRowSelect;
    }

    /** `handleSort(key)`: the next sort state; the selection is left alone. */
    method HandleSort(key: string)
      modifies this`sortKey, this`sortOrder
      ensures Sort() == NextSort(old(Sort()), key)
      ensures selected == old(selected)
    {
      var order := if sortKey == Some(key) && sortOrder == Asc then Desc else Asc;
      sortKey := Some(key);
      sortOrder := order;
    }

    /** A click on the header of column `i`: only a sortable column calls `handleSort`, with its `key`. */
    method ClickHeader(i: nat)
      requires Shown() == Populated && i < |columns|
      modifies this`sortKey, this`sortOrder
      ensures Sort() == if columns[i].sortable then NextSort(old(Sort()), columns[i].key) else old(Sort())
      ensures selected == old(selected)
    {
      if columns[i].sortable {
        HandleSort(columns[i].key);
      }
    }

    /**
     * `toggleRow(id)`: flips the membership of `id` in a copy of the selection, stores
     * it, and hands `onRowSelect` (when given) the selected rows in data order.
     */
    method ToggleRow(id: Id) returns (notified: Option<seq<Row>>)
      modifies this`selected
      ensures selected == Toggled(old(selected), id)
      ensures notified == if hasOnRowSelect then Some(SelectedRows(data, selected)) else None
      ensures Sort() == old(Sort())
    {
      var newSelected := selected;
      if id in newSelected {
        newSelected := newSelected - {id};
      } else {
        newSelected := newSelected + {id};
      }
      selected := newSelected;
      if hasOnRowSelect {
        notified := Some(SelectedRows(data, newSelected));
      } else {
        notified := None;
      }
    }

    /** A click on the checkbox of the row shown at position `i`; checkboxes exist only when `selectable`. */
    method ClickCheckbox(i: nat) returns (notified: Option<seq<Row>>)
      requires Shown() == Populated && selectable && i < |View()|
      modifies this`selected
      ensures selected == Toggled(old(selected), old(View())[i].id)
      ensures notified == if hasOnRowSelect then Some(SelectedRows(data, selected)) else None
      ensures Sort() == old(Sort())
    {
      notified := ToggleRow(View()[i].id);
    }
  }
}
