/**
 * The demonstration data of the application (three people with an id, a name and an
 * age) and what the table makes of it.
 */
module Samples {
  import opened Wrappers
  import opened Values
  import opened Rows
  import opened SortView
  import opened Selection
  import opened Table

  function Person(id: int, name: string, age: int): Row
  {
    Row(Num(id), map["name" := Str(name), "age" := Num(age)])
  }

  function Alice(): Row { Person(1, "Alice", 24) }
  function Bob(): Row { Person(2, "Bob", 30) }
  function Charlie(): Row { Person(3, "Charlie", 22) }

  function Dana(): Row { Person(4, "Dana", 30) }

  function People(): seq<Row> { [Alice(), Bob(), Charlie()] }

  function PeopleColumns(): seq<Column>
  {
    [Column("id", "ID", "id", true), Column("name", "Name", "name", true), Column("age", "Age", "age", true)]
  }

  lemma PersonFields(id: int, name: string, age: int)
    ensures Field(Person(id, name, age), "age") == Some(Num(age))
    ensures Field(Person(id, name, age), "name") == Some(Str(name))
    ensures Field(Person(id, name, age), "id") == Some(Num(id))
    ensures Field(Person(id, name, age), "years") == None
  {
    assert "years" != "id" && "years" != "name" && "years" != "age" by { assert "years"[0] == 'y'; }
    assert "age" != "id" by { assert "age"[0] != "id"[0]; }
    assert "name" != "id" by { assert "name"[0] != "id"[0]; }
  }

  lemma InsertFirst(x: Row, s: seq<Row>, key: string, order: SortOrder)
    requires s != [] && Compare(x, s[0], key, order) <= 0
    ensures Insert(x, s, key, order) == [x] + s
  {
  }

  lemma InsertPast(x: Row, y: Row, s: seq<Row>, key: string, order: SortOrder)
    requires Compare(x, y, key, order) > 0
    ensures Insert(x, [y] + s, key, order) == [y] + Insert(x, s, key, order)
  {
    assert ([y] + s)[0] == y && ([y] + s)[1..] == s;
  }

  lemma InsertIntoTwo(a: Row, x: Row, y: Row, key: string, order: SortOrder)
    ensures Insert(a, [x, y], key, order) ==
      if Compare(a, x, key, order) <= 0 then [a, x, y]
      else if Compare(a, y, key, order) <= 0 then [x, a, y]
      else [x, y, a]
  {
    assert [x, y] == [x] + [y];
    if Compare(a, x, key, order) <= 0 {
      InsertFirst(a, [x, y], key, order);
      assert [a] + [x, y] == [a, x, y];
    } else {
      InsertPast(a, x, [y], key, order);
      if Compare(a, y, key, order) <= 0 {
        InsertFirst(a, [y], key, order);
        assert [x] + ([a] + [y]) == [x, a, y];
      } else {
        assert [y] == [y] + [];
        InsertPast(a, y, [], key, order);
        assert Insert(a, [], key, order) == [a];
        assert [x] + ([y] + [a]) == [x, y, a];
      }
    }
  }

  lemma StableSortOfTwo(b: Row, c: Row, key: string, order: SortOrder)
    ensures StableSort([b, c], key, order) == if Compare(b, c, key, order) <= 0 then [b, c] else [c, b]
  {
    assert [b, c][1..] == [c];
    assert StableSort([c], key, order) == [c];
    if Compare(b, c, key, order) > 0 {
      assert [c] == [c] + [];
      InsertPast(b, c, [], key, order);
    }
  }

  /** The stable sort of three rows, decided by the comparator's answers. */
  lemma StableSortOfThree(a: Row, b: Row, c: Row, key: string, order: SortOrder)
    ensures StableSort([a, b, c], key, order) ==
      if Compare(b, c, key, order) <= 0 then
        if Compare(a, b, key, order) <= 0 then [a, b, c]
        else if Compare(a, c, key, order) <= 0 then [b, a, c]
        else [b, c, a]
      else
        if Compare(a, c, key, order) <= 0 then [a, c, b]
        else if Compare(a, b, key, order) <= 0 then [c, a, b]
        else [c, b, a]
  {
    assert [a, b, c][1..] == [b, c];
    assert StableSort([a, b, c], key, order) == Insert(a, StableSort([b, c], key, order), key, order);
    StableSortOfTwo(b, c, key, order);
    if Compare(b, c, key, order) <= 0 {
      InsertIntoTwo(a, b, c, key, order);
    } else {
      InsertIntoTwo(a, c, b, key, order);
    }
  }

  lemma AgeComparisons()
    ensures Compare(Bob(), Charlie(), "age", Asc) == 1 && Compare(Bob(), Charlie(), "age", Desc) == -1
    ensures Compare(Alice(), Charlie(), "age", Asc) == 1 && Compare(Alice(), Charlie(), "age", Desc) == -1
    ensures Compare(Alice(), Bob(), "age", Asc) == -1 && Compare(Alice(), Bob(), "age", Desc) == 1
    ensures Compare(Dana(), Charlie(), "age", Asc) == 1 && Compare(Dana(), Charlie(), "age", Desc) == -1
    ensures Compare(Bob(), Dana(), "age", Asc) == 0 && Compare(Bob(), Dana(), "age", Desc) == 0
  {
    PersonFields(1, "Alice", 24);
    PersonFields(2, "Bob", 30);
    PersonFields(3, "Charlie", 22);
    PersonFields(4, "Dana", 30);
  }

  lemma NameComparisons()
    ensures Compare(Bob(), Charlie(), "name", Asc) == -1 && Compare(Bob(), Charlie(), "name", Desc) == 1
    ensures Compare(Alice(), Charlie(), "name", Asc) == -1 && Compare(Alice(), Charlie(), "name", Desc) == 1
    ensures Compare(Alice(), Bob(), "name", Asc) == -1 && Compare(Alice(), Bob(), "name", Desc) == 1
  {
    PersonFields(1, "Alice", 24);
    PersonFields(2, "Bob", 30);
    PersonFields(3, "Charlie", 22);
    assert StrLess("Alice", "Bob") && StrLess("Bob", "Charlie") && StrLess("Alice", "Charlie");
    LessAsymmetric(Some(Str("Alice")), Some(Str("Bob")));
    LessAsymmetric(Some(Str("Bob")), Some(Str("Charlie")));
    LessAsymmetric(Some(Str("Alice")), Some(Str("Charlie")));
  }

  /** Sorting by age ascending gives ids 3, 1, 2. */
  lemma SortByAgeAscending()
    ensures DerivedView(People(), Some("age"), Asc) == [Charlie(), Alice(), Bob()]
  {
    AgeComparisons();
    StableSortOfThree(Alice(), Bob(), Charlie(), "age", Asc);
  }

  /** A second click, descending, gives ids 2, 1, 3. */
  lemma SortByAgeDescending()
    ensures DerivedView(People(), Some("age"), Desc) == [Bob(), Alice(), Charlie()]
  {
    AgeComparisons();
    StableSortOfThree(Alice(), Bob(), Charlie(), "age", Desc);
  }

  /** Sorting by name compares the strings character by character. */
  lemma SortByNameAscending()
    ensures DerivedView(People(), Some("name"), Asc) == People()
  {
    NameComparisons();
    StableSortOfThree(Alice(), Bob(), Charlie(), "name", Asc);
  }

  lemma SortByNameDescending()
    ensures DerivedView(People(), Some("name"), Desc) == [Charlie(), Bob(), Alice()]
  {
    NameComparisons();
    StableSortOfThree(Alice(), Bob(), Charlie(), "name", Desc);
  }

  /** Bob and Dana tie on age; ascending, they keep their input order. */
  lemma TiesKeepOrderAscending()
    ensures DerivedView([Bob(), Dana(), Charlie()], Some("age"), Asc) == [Charlie(), Bob(), Dana()]
  {
    AgeComparisons();
    StableSortOfThree(Bob(), Dana(), Charlie(), "age", Asc);
  }

  /** Descending is not the reverse of ascending: Bob still comes before Dana. */
  lemma TiesKeepOrderDescending()
    ensures DerivedView([Bob(), Dana(), Charlie()], Some("age"), Desc) == [Bob(), Dana(), Charlie()]
  {
    AgeComparisons();
    StableSortOfThree(Bob(), Dana(), Charlie(), "age", Desc);
  }

  /** A sort key naming no field of the people ("years") leaves them in data order. */
  lemma SortReadsColumnKey()
    ensures DerivedView(People(), Some("years"), Asc) == People()
    ensures DerivedView(People(), Some("years"), Desc) == People()
  {
    PersonFields(1, "Alice", 24);
    PersonFields(2, "Bob", 30);
    PersonFields(3, "Charlie", 22);
    assert AllKind(People(), "years", Missing);
    ViewOfMissingKey(People(), "years", Asc);
    ViewOfMissingKey(People(), "years", Desc);
  }

  lemma SelectedRowsCons(x: Row, s: seq<Row>, selected: set<Id>)
    ensures SelectedRows([x] + s, selected) == (if x.id in selected then [x] else []) + SelectedRows(s, selected)
  {
    assert ([x] + s)[1..] == s;
  }

  /** With ids 1 and 2 selected (and not 3), the payload is Alice then Bob, in data order. */
  lemma PayloadOfAliceAndBob(selected: set<Id>)
    requires Num(1) in selected && Num(2) in selected && Num(3) !in selected
    ensures SelectedRows(People(), selected) == [Alice(), Bob()]
  {
    SelectedRowsCons(Charlie(), [], selected);
    SelectedRowsCons(Bob(), [Charlie()], selected);
    SelectedRowsCons(Alice(), [Bob(), Charlie()], selected);
  }

  /** Filtering the descending age view instead would have reported Bob first. */
  lemma FilteredViewOrderDiffers(selected: set<Id>)
    requires Num(1) in selected && Num(2) in selected && Num(3) !in selected
    ensures SelectedRows(DerivedView(People(), Some("age"), Desc), selected) == [Bob(), Alice()]
  {
    SortByAgeDescending();
    SelectedRowsCons(Charlie(), [], selected);
    SelectedRowsCons(Alice(), [Charlie()], selected);
    SelectedRowsCons(Bob(), [Alice(), Charlie()], selected);
  }

  /** With only id 2 selected among the three, the payload is Bob. */
  lemma PayloadOfBob(selected: set<Id>)
    requires Num(1) !in selected && Num(2) in selected && Num(3) !in selected
    ensures SelectedRows(People(), selected) == [Bob()]
  {
    SelectedRowsCons(Charlie(), [], selected);
    SelectedRowsCons(Bob(), [Charlie()], selected);
    SelectedRowsCons(Alice(), [Bob(), Charlie()], selected);
  }

  /** Two clicks on the "Age" header of the demonstration table: ids 3, 1, 2, then 2, 1, 3. */
  method SampleSorting()
  {
    var t := new DataTable(People(), PeopleColumns(), false, true, true);
    assert t.Shown() == Populated;
    t.ClickHeader(2);
    assert t.Sort() == SortState(Some("age"), Asc);
    SortByAgeAscending();
    assert t.View() == [Charlie(), Alice(), Bob()];
    t.ClickHeader(2);
    assert t.Sort() == SortState(Some("age"), Desc);
    SortByAgeDescending();
    assert t.View() == [Bob(), Alice(), Charlie()];
  }

  /** Toggling ids 2 then 1 reports Bob, then Alice and Bob, whatever the sort. */
  method SampleSelection()
  {
    var t := new DataTable(People(), PeopleColumns(), false, true, true);
    var notified := t.ToggleRow(Num(2));
    PayloadOfBob(t.selected);
    assert notified == Some([Bob()]);
    t.HandleSort("age");
    t.HandleSort("age");
    assert t.data == People();
    notified := t.ToggleRow(Num(1));
    PayloadOfAliceAndBob(t.selected);
    assert t.data == People();
    assert notified == Some([Alice(), Bob()]);
  }

  /** New data keeps the selection of ids 1 and 2; a later toggle reports only the rows present. */
  method SampleSelectionAcrossRenders()
  {
    var t := new DataTable(People(), PeopleColumns(), false, true, true);
    var notified := t.ToggleRow(Num(1));
    notified := t.ToggleRow(Num(2));
    t.Rerender([Charlie()], PeopleColumns(), false, true, true);
    assert t.selected == {Num(1), Num(2)};
    notified := t.ToggleRow(Num(3));
    assert t.data == [Charlie()] && t.hasOnRowSelect;
    SelectedRowsCons(Charlie(), [], t.selected);
    assert [Charlie()] + [] == [Charlie()];
    assert notified == Some([Charlie()]);
  }

  /** A sortable column keyed "years" that displays `age`: clicking it sorts by the key, so nothing moves. */
  method SampleColumnKey()
  {
    var t := new DataTable(People(), [Column("years", "Age", "age", true)], false, true, true);
    assert t.Shown() == Populated;
    t.ClickHeader(0);
    assert t.Sort() == SortState(Some("years"), Asc);
    SortReadsColumnKey();
    assert t.View() == People();
  }
}
