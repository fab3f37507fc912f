/**
 * The custom context menu of an XViewer tree: the header hit test, the
 * choice of menu, the column multi-edit submenu, the copy actions and their
 * key bindings, and the show, add-computed and hide column actions.
 */
module XViewerCustomMenu {
  import opened Wrappers
  import opened Swt
  import opened Strings
  import opened XViewerColumns

  /** A tree column: its header text, its width (0 when hidden) and the XViewer column behind it, if any. */
  datatype TreeColumn = TreeColumn(text: string, width: int, data: Option<XColumn>)

  /** A selected tree item, as the label provider renders it: the text of each column, or null. */
  type Row = seq<Option<string>>

  /** Why an action ended without doing its work. */
  datatype Problem =
    | NullColumn         // no column was right-clicked: dereferencing it fails
    | NoComputedColumns  // "error.no_computed"
    | NoItems            // "error.no_items"
    | NoSelection        // "error.no_selection"
    | NoColumns          // "error.no_columns"

  /** How an action ended. */
  datatype Outcome = Done | Cancelled | Reported(problem: Problem)

  // ---------------------------------------------------------------------------
  // Header hit test and key bindings
  // ---------------------------------------------------------------------------

  /** A menu request at y (tree coordinates) hits the header band [areaY, areaY + headerHeight). */
  function HeaderClick(areaY: int, headerHeight: int, y: int): (r: bool)
    ensures r ==> areaY <= y && y - areaY < headerHeight
    ensures r <== areaY <= y && y - areaY < headerHeight
  {
    areaY <= y && y < areaY + headerHeight
  }

  /** The header band is an interval: a point between two header clicks is one too, and it is empty without a header. */
  lemma HeaderBandIsInterval(areaY: int, headerHeight: int, y1: int, y: int, y2: int)
    requires HeaderClick(areaY, headerHeight, y1) && HeaderClick(areaY, headerHeight, y2) && y1 <= y <= y2
    ensures HeaderClick(areaY, headerHeight, y)
    ensures headerHeight > 0 && HeaderClick(areaY, headerHeight, areaY) && !HeaderClick(areaY, headerHeight, areaY + headerHeight)
  {
  }

  /** What a released key does. */
  datatype KeyAction = CopyColumnCells | CopyRows | NoKeyAction

  /** 'c' with exactly Ctrl+Shift copies one column's cells; 'c' with exactly Ctrl copies rows. */
  function KeyBinding(keyCode: int, stateMask: int): (a: KeyAction)
    ensures a == CopyColumnCells <==> keyCode == 'c' as int && stateMask == CONTROL + SHIFT
    ensures a == CopyRows <==> keyCode == 'c' as int && stateMask == CONTROL
  {
    if keyCode == 'c' as int && stateMask == CONTROL + SHIFT then CopyColumnCells
    else if keyCode == 'c' as int && stateMask == CONTROL then CopyRows
    else NoKeyAction
  }

  // ---------------------------------------------------------------------------
  // Menus
  // ---------------------------------------------------------------------------

  /** An entry of the column multi-edit submenu. `name` is the tree column text the entry was sorted by. */
  datatype EditEntry = NoEditableColumns | EditColumn(name: string, caption: string)

  /** The entries of the context menu. */
  datatype MenuItem =
    | ShowColumnItem | HideColumnItem | AddComputedColumnItem | CopyColumnCellsItem
    | FilterByColumnItem | ClearAllFiltersItem | ClearAllSortingItem | SumColumnItem | UniqueValuesItem
    | GroupPre | GroupPost | TablePropertiesItem | ViewTableReportItem | EditSubmenu(entries: seq<EditEntry>)
    | CopySelectedCellItem | ViewSelectedCellItem | CopySelectedItem | FilterByValueItem
    | RemoveSelectedItem | RemoveNonSelectedItem | Separator

  /** The menu for a right-click on the header. */
  function HeaderMenu(): (r: seq<MenuItem>)
    ensures ShowColumnItem in r && HideColumnItem in r && AddComputedColumnItem in r
    ensures forall k :: 0 <= k < |r| ==> !r[k].EditSubmenu? && r[k] != RemoveSelectedItem && r[k] != RemoveNonSelectedItem
  {
    [ShowColumnItem, HideColumnItem, AddComputedColumnItem, CopyColumnCellsItem, Separator,
     FilterByColumnItem, ClearAllFiltersItem, ClearAllSortingItem, Separator,
     SumColumnItem, UniqueValuesItem]
  }

  /**
   * The menu for a right-click in the table. The edit submenu is there only
   * when multi-edit is enabled, the remove entries only when removing items
   * is enabled; the menu is bracketed by the pre and post group markers.
   */
  function TableMenu(multiEdit: bool, removeEnabled: bool, edit: seq<EditEntry>): (r: seq<MenuItem>)
    ensures |r| >= 14 && r[0] == GroupPre && r[|r| - 1] == GroupPost
    ensures multiEdit ==> r[4] == EditSubmenu(edit)
    ensures !multiEdit ==> forall k :: 0 <= k < |r| ==> !r[k].EditSubmenu?
    ensures removeEnabled ==> r[|r| - 3] == RemoveSelectedItem && r[|r| - 2] == RemoveNonSelectedItem
    ensures !removeEnabled ==> forall k :: 0 <= k < |r| ==> r[k] != RemoveSelectedItem && r[k] != RemoveNonSelectedItem
  {
    var head := [GroupPre, Separator, TablePropertiesItem, ViewTableReportItem];
    var body := [CopySelectedCellItem, ViewSelectedCellItem, CopySelectedItem, CopyColumnCellsItem, Separator,
                 FilterByValueItem, FilterByColumnItem, ClearAllFiltersItem, ClearAllSortingItem];
    var removes := [Separator, RemoveSelectedItem, RemoveNonSelectedItem];
    if multiEdit && removeEnabled then head + [EditSubmenu(edit)] + body + removes + [GroupPost]
    else if multiEdit then head + [EditSubmenu(edit)] + body + [GroupPost]
    else if removeEnabled then head + body + removes + [GroupPost]
    else head + body + [GroupPost]
  }

  // ---------------------------------------------------------------------------
  // Column multi-edit submenu
  // ---------------------------------------------------------------------------

  /** The column each header text maps to after putting every editable column in order: the last one wins. */
  function NameMap(cols: seq<TreeColumn>): (r: map<string, TreeColumn>)
    ensures forall n :: n in r <==> exists k :: 0 <= k < |cols| && cols[k].text == n
    ensures forall n :: n in r ==> r[n] in cols && r[n].text == n
  {
    if |cols| == 0 then map[]
    else
      var init, c := cols[..|cols| - 1], cols[|cols| - 1];
      var r := NameMap(init)[c.text := c];
      assert forall n :: n in r ==> exists k :: 0 <= k < |cols| && cols[k].text == n by {
        forall n | n in r ensures exists k :: 0 <= k < |cols| && cols[k].text == n {
          if n != c.text {
            var k :| 0 <= k < |init| && init[k].text == n;
            assert cols[k] == init[k];
          }
        }
      }
      assert forall n :: (exists k :: 0 <= k < |cols| && cols[k].text == n) ==> n in r by {
        forall n | exists k :: 0 <= k < |cols| && cols[k].text == n ensures n in r {
          var k :| 0 <= k < |cols| && cols[k].text == n;
          if k < |init| {
            assert init[k] == cols[k];
          }
        }
      }
      r
  }

  /** A text maps to the last editable column that carries it. */
  lemma {:induction false} NameMapLastWins(cols: seq<TreeColumn>, k: nat)
    requires k < |cols|
    requires forall j :: k < j < |cols| ==> cols[j].text != cols[k].text
    ensures NameMap(cols)[cols[k].text] == cols[k]
    decreases |cols|
  {
    if k < |cols| - 1 {
      var init := cols[..|cols| - 1];
      assert forall j :: k < j < |init| ==> init[j].text != init[k].text by {
        forall j | k < j < |init| ensures init[j].text != init[k].text {
          assert init[j] == cols[j];
        }
      }
      NameMapLastWins(init, k);
    }
  }

  /** The distinct header texts in order of first appearance (the key set of the map). */
  function Names(cols: seq<TreeColumn>): (r: seq<string>)
    ensures Distinct(r)
    ensures forall n :: n in r <==> n in NameMap(cols)
  {
    if |cols| == 0 then []
    else
      var init, c := cols[..|cols| - 1], cols[|cols| - 1];
      Names(init) + (if c.text in NameMap(init) then [] else [c.text])
  }

  /** The submenu entry of the column a name maps to: only multi-editable XViewer columns get one. */
  function EntriesFor(names: seq<string>, byName: map<string, TreeColumn>): (r: seq<EditEntry>)
    requires forall k :: 0 <= k < |names| ==> names[k] in byName
    ensures forall k :: 0 <= k < |r| ==> r[k].EditColumn? && r[k].name in names
    ensures forall k :: 0 <= k < |r| ==>
              var c := byName[r[k].name];
              c.data.Some? && c.data.value.multiEditable && r[k].caption == "Edit " + c.data.value.name
  {
    if |names| == 0 then []
    else
      var init, n := names[..|names| - 1], names[|names| - 1];
      var c := byName[n];
      var front := EntriesFor(init, byName);
      var r := front + (if c.data.Some? && c.data.value.multiEditable then [EditColumn(n, "Edit " + c.data.value.name)] else []);
      assert forall k :: 0 <= k < |r| ==> r[k].EditColumn? && r[k].name in names by {
        forall k | 0 <= k < |r| ensures r[k].EditColumn? && r[k].name in names {
          if k < |front| {
            assert r[k] == front[k];
            assert r[k].name in init;
          }
        }
      }
      r
  }

  /** Every name mapping to a multi-editable XViewer column gets an entry. */
  lemma {:induction false} EntriesForComplete(names: seq<string>, byName: map<string, TreeColumn>, m: string)
    requires forall k :: 0 <= k < |names| ==> names[k] in byName
    requires m in names && byName[m].data.Some? && byName[m].data.value.multiEditable
    ensures exists k :: 0 <= k < |EntriesFor(names, byName)| && EntriesFor(names, byName)[k].name == m
    decreases |names|
  {
    var init, n := names[..|names| - 1], names[|names| - 1];
    var r := EntriesFor(names, byName);
    if m == n {
      assert r[|r| - 1].name == m;
    } else {
      assert m in init by {
        var j :| 0 <= j < |names| && names[j] == m;
        assert j < |init|;
        assert init[j] == m;
      }
      EntriesForComplete(init, byName, m);
      var front := EntriesFor(init, byName);
      var k :| 0 <= k < |front| && front[k].name == m;
      assert r[k] == front[k];
    }
  }

  /** Entry names follow the order of the names they come from. */
  lemma {:induction false} EntriesForSorted(names: seq<string>, byName: map<string, TreeColumn>)
    requires forall k :: 0 <= k < |names| ==> names[k] in byName
    requires StrictlySorted(names)
    ensures forall i, j :: 0 <= i < j < |EntriesFor(names, byName)| ==>
              LexLess(EntriesFor(names, byName)[i].name, EntriesFor(names, byName)[j].name)
    decreases |names|
  {
    if |names| > 0 {
      var init, n := names[..|names| - 1], names[|names| - 1];
      assert StrictlySorted(init);
      EntriesForSorted(init, byName);
      var front := EntriesFor(init, byName);
      var r := EntriesFor(names, byName);
      assert r[..|front|] == front;
      forall i, j | 0 <= i < j < |r| ensures LexLess(r[i].name, r[j].name) {
        assert r[i] == front[i];
        if j >= |front| {
          assert r[j].name == n;
          assert r[i].name in init;
          var k :| 0 <= k < |init| && init[k] == r[i].name;
          assert names[k] == init[k] && k < |names| - 1;
          assert LexLess(names[k], names[|names| - 1]);
        } else {
          assert r[j] == front[j];
          assert LexLess(front[i].name, front[j].name);
        }
      }
    }
  }

  /**
   * The column multi-edit submenu of a set of editable columns (visited in
   * the given order): one entry saying there is nothing to edit when the set
   * is empty, else one entry per distinct header text, in ascending order of
   * the texts.
   */
  function EditMenu(editable: seq<TreeColumn>): (r: seq<EditEntry>)
    ensures |editable| == 0 <==> r == [NoEditableColumns]
  {
    if |editable| == 0 then [NoEditableColumns]
    else
      var byName := NameMap(editable);
      var names := Sort(Names(editable));
      assert forall k :: 0 <= k < |names| ==> names[k] in byName by {
        assert multiset(names) == multiset(Names(editable));
        forall k | 0 <= k < |names| ensures names[k] in byName {
          assert names[k] in multiset(Names(editable));
        }
      }
      var r := EntriesFor(names, byName);
      assert r != [NoEditableColumns] by {
        if |r| > 0 {
          assert r[0].EditColumn?;
        }
      }
      r
  }

  /** The sorted names are exactly the texts of the editable columns. */
  lemma SortedNamesAreKeys(editable: seq<TreeColumn>)
    ensures forall n :: n in Sort(Names(editable)) <==> n in NameMap(editable)
  {
    var names := Sort(Names(editable));
    assert multiset(names) == multiset(Names(editable));
    forall n ensures n in names <==> n in NameMap(editable) {
      assert n in names <==> n in multiset(names);
      assert n in Names(editable) <==> n in multiset(Names(editable));
    }
  }

  /** With editable columns, the entries are in strictly ascending order of their texts, so no text gets two. */
  lemma EditMenuSorted(editable: seq<TreeColumn>)
    requires |editable| > 0
    ensures forall i, j :: 0 <= i < j < |EditMenu(editable)| ==>
              LexLess(EditMenu(editable)[i].name, EditMenu(editable)[j].name)
  {
    SortedNamesAreKeys(editable);
    SortStrictlySorted(Names(editable));
    EntriesForSorted(Sort(Names(editable)), NameMap(editable));
  }

  /**
   * With editable columns, every entry edits the last editable column with
   * its text, which is a multi-editable XViewer column, and is labelled
   * "Edit " and that column's name.
   */
  lemma EditMenuSound(editable: seq<TreeColumn>)
    requires |editable| > 0
    ensures forall k :: 0 <= k < |EditMenu(editable)| ==>
              && EditMenu(editable)[k].EditColumn?
              && EditMenu(editable)[k].name in NameMap(editable)
              && var c := NameMap(editable)[EditMenu(editable)[k].name];
                 c.data.Some? && c.data.value.multiEditable && EditMenu(editable)[k].caption == "Edit " + c.data.value.name
  {
    SortedNamesAreKeys(editable);
  }

  /** With editable columns, every text whose last column is a multi-editable XViewer column gets an entry. */
  lemma EditMenuComplete(editable: seq<TreeColumn>, n: string)
    requires |editable| > 0
    requires n in NameMap(editable) && NameMap(editable)[n].data.Some? && NameMap(editable)[n].data.value.multiEditable
    ensures exists k :: 0 <= k < |EditMenu(editable)| && EditMenu(editable)[k].name == n
  {
    SortedNamesAreKeys(editable);
    var names := Sort(Names(editable));
    assert n in names;
    assert EditMenu(editable) == EntriesFor(names, NameMap(editable));
    EntriesForComplete(names, NameMap(editable), n);
  }

  // ---------------------------------------------------------------------------
  // Copy
  // ---------------------------------------------------------------------------

  /** The label provider's text of column x of a row; null past the row's end. */
  function CellText(row: Row, x: nat): Option<string>
  {
    if x < |row| then row[x] else None
  }

  /** The non-null texts of the visible (width > 0) columns of a row, left to right. */
  function VisibleTexts(row: Row, columns: seq<TreeColumn>): (r: seq<string>)
    ensures |r| <= |columns|
    ensures forall t :: t in r ==> exists x :: 0 <= x < |columns| && columns[x].width > 0 && CellText(row, x) == Some(t)
  {
    if |columns| == 0 then []
    else
      var n := |columns| - 1;
      var front := VisibleTexts(row, columns[..n]);
      var r := front + (if columns[n].width > 0 && CellText(row, n).Some? then [CellText(row, n).value] else []);
      assert forall t :: t in r ==> exists x :: 0 <= x < |columns| && columns[x].width > 0 && CellText(row, x) == Some(t) by {
        forall t | t in r ensures exists x :: 0 <= x < |columns| && columns[x].width > 0 && CellText(row, x) == Some(t) {
          if t in front {
            var x :| 0 <= x < n && columns[..n][x].width > 0 && CellText(row, x) == Some(t);
            assert columns[x] == columns[..n][x];
          }
        }
      }
      r
  }

  /** Column x is visible and the row has a text for it. */
  predicate ShowsText(row: Row, columns: seq<TreeColumn>, x: nat)
    requires x < |columns|
  {
    columns[x].width > 0 && CellText(row, x).Some?
  }

  /** How many of the first n columns are visible with a text in the row. */
  function ShownCount(row: Row, columns: seq<TreeColumn>, n: nat): nat
    requires n <= |columns|
  {
    if n == 0 then 0 else ShownCount(row, columns, n - 1) + (if ShowsText(row, columns, n - 1) then 1 else 0)
  }

  /** The count over a prefix of the columns is the count over all of them, up to the prefix's end. */
  lemma {:induction false} ShownCountPrefix(row: Row, columns: seq<TreeColumn>, m: nat, k: nat)
    requires k <= m <= |columns|
    ensures ShownCount(row, columns[..m], k) == ShownCount(row, columns, k)
    decreases k
  {
    if k > 0 {
      ShownCountPrefix(row, columns, m, k - 1);
      assert columns[..m][k - 1] == columns[k - 1];
    }
  }

  /** A column that shows a text has fewer such columns before it than any later column has. */
  lemma {:induction false} ShownCountGrows(row: Row, columns: seq<TreeColumn>, j: nat, k: nat)
    requires j < k <= |columns| && ShowsText(row, columns, j)
    ensures ShownCount(row, columns, j) < ShownCount(row, columns, k)
    decreases k
  {
    if j + 1 < k {
      ShownCountGrows(row, columns, j, k - 1);
    }
  }

  /** The number of visible texts is the number of visible columns with a text. */
  lemma {:induction false} VisibleTextsLength(row: Row, columns: seq<TreeColumn>)
    ensures |VisibleTexts(row, columns)| == ShownCount(row, columns, |columns|)
    decreases |columns|
  {
    if |columns| > 0 {
      var n := |columns| - 1;
      VisibleTextsLength(row, columns[..n]);
      ShownCountPrefix(row, columns, n, n);
    }
  }

  /** The text of a visible column x sits at the number of visible columns with a text before x. */
  lemma {:induction false} VisibleTextAt(row: Row, columns: seq<TreeColumn>, x: nat)
    requires x < |columns| && ShowsText(row, columns, x)
    ensures ShownCount(row, columns, x) < |VisibleTexts(row, columns)|
    ensures VisibleTexts(row, columns)[ShownCount(row, columns, x)] == CellText(row, x).value
    decreases |columns|
  {
    var n := |columns| - 1;
    var init := columns[..n];
    var u := VisibleTexts(row, init);
    VisibleTextsLength(row, init);
    ShownCountPrefix(row, columns, n, x);
    if x < n {
      assert init[x] == columns[x];
      assert ShowsText(row, init, x);
      VisibleTextAt(row, init, x);
    } else {
      ShownCountPrefix(row, columns, n, n);
      assert VisibleTexts(row, columns) == u + [CellText(row, n).value];
    }
  }

  /**
   * VisibleTexts holds exactly the non-null texts of the visible columns, in
   * column order: its length is their number, and the text of such a column
   * x sits at the number of such columns before x.
   */
  lemma VisibleTextsPositions(row: Row, columns: seq<TreeColumn>)
    ensures |VisibleTexts(row, columns)| == ShownCount(row, columns, |columns|)
    ensures forall x :: 0 <= x < |columns| && ShowsText(row, columns, x) ==>
              ShownCount(row, columns, x) < |VisibleTexts(row, columns)|
              && VisibleTexts(row, columns)[ShownCount(row, columns, x)] == CellText(row, x).value
  {
    VisibleTextsLength(row, columns);
    forall x | 0 <= x < |columns| && ShowsText(row, columns, x)
      ensures ShownCount(row, columns, x) < |VisibleTexts(row, columns)|
      ensures VisibleTexts(row, columns)[ShownCount(row, columns, x)] == CellText(row, x).value
    {
      VisibleTextAt(row, columns, x);
    }
  }

  /** One copied line: the visible texts of a row joined by tabs. */
  function RowLine(row: Row, columns: seq<TreeColumn>): string
  {
    Join(VisibleTexts(row, columns), "\t")
  }

  /** The text row copy puts on the clipboard: one line per row, each ended by a newline. */
  function CopiedRows(rows: seq<Row>, columns: seq<TreeColumn>): (r: string)
    ensures |rows| > 0 ==> |r| > 0 && r[|r| - 1] == '\n'
  {
    if |rows| == 0 then ""
    else CopiedRows(rows[..|rows| - 1], columns) + RowLine(rows[|rows| - 1], columns) + "\n"
  }

  /** The copied lines. */
  function RowLines(rows: seq<Row>, columns: seq<TreeColumn>): (r: seq<string>)
    ensures |r| == |rows|
  {
    seq(|rows|, k requires 0 <= k < |rows| => RowLine(rows[k], columns))
  }

  /** Joined with separators, none of which is c, texts free of c give a text free of c. */
  lemma {:induction false} JoinAvoids(xs: seq<string>, sep: string, c: char)
    requires c !in sep
    requires forall k :: 0 <= k < |xs| ==> c !in xs[k]
    ensures c !in Join(xs, sep)
  {
    if |xs| > 1 {
      JoinAvoids(xs[..|xs| - 1], sep, c);
    }
  }

  /** The copied text is the copied lines joined by newlines, plus a final newline. */
  lemma {:induction false} CopiedRowsAreLines(rows: seq<Row>, columns: seq<TreeColumn>)
    requires |rows| > 0
    ensures CopiedRows(rows, columns) == Join(RowLines(rows, columns), "\n") + "\n"
  {
    if |rows| > 1 {
      var init := rows[..|rows| - 1];
      CopiedRowsAreLines(init, columns);
      assert RowLines(rows, columns)[..|rows| - 1] == RowLines(init, columns);
    }
  }

  /** Texts that hold no tab and no newline. */
  predicate PlainTexts(rows: seq<Row>)
  {
    forall k, x :: 0 <= k < |rows| && 0 <= x < |rows[k]| && rows[k][x].Some? ==>
      '\t' !in rows[k][x].value && '\n' !in rows[k][x].value
  }

  /**
   * Copied rows read back: cutting the copied text at newlines gives the
   * lines, then an empty remainder, and cutting a line at tabs gives the
   * row's visible texts, when the texts hold no tabs or newlines and the row
   * shows at least one.
   */
  lemma CopiedRowsReadBack(rows: seq<Row>, columns: seq<TreeColumn>)
    requires |rows| > 0 && PlainTexts(rows)
    ensures Split(CopiedRows(rows, columns), '\n') == RowLines(rows, columns) + [""]
    ensures forall k :: 0 <= k < |rows| && |VisibleTexts(rows[k], columns)| > 0 ==>
              Split(RowLines(rows, columns)[k], '\t') == VisibleTexts(rows[k], columns)
  {
    var lines := RowLines(rows, columns);
    forall k | 0 <= k < |rows|
      ensures forall i :: 0 <= i < |VisibleTexts(rows[k], columns)| ==>
                '\t' !in VisibleTexts(rows[k], columns)[i] && '\n' !in VisibleTexts(rows[k], columns)[i]
    {
      forall i | 0 <= i < |VisibleTexts(rows[k], columns)|
        ensures '\t' !in VisibleTexts(rows[k], columns)[i] && '\n' !in VisibleTexts(rows[k], columns)[i]
      {
        var t := VisibleTexts(rows[k], columns)[i];
        assert t in VisibleTexts(rows[k], columns);
        var x :| 0 <= x < |columns| && columns[x].width > 0 && CellText(rows[k], x) == Some(t);
      }
    }
    forall k | 0 <= k < |lines| ensures '\n' !in lines[k] {
      JoinAvoids(VisibleTexts(rows[k], columns), "\t", '\n');
    }
    CopiedRowsAreLines(rows, columns);
    SplitJoin(lines, '\n');
    assert Join(lines, "\n") + "\n" == Join(lines, "\n") + ['\n'] + "";
    SplitLast(Join(lines, "\n"), "", '\n');
    forall k | 0 <= k < |rows| && |VisibleTexts(rows[k], columns)| > 0
      ensures Split(lines[k], '\t') == VisibleTexts(rows[k], columns)
    {
      SplitJoin(VisibleTexts(rows[k], columns), '\t');
    }
  }

  /** A text as StringBuffer.append writes it: a null text is written "null". */
  function TextOrNull(t: Option<string>): string
  {
    if t.None? then "null" else t.value
  }

  /** What the column-cells copy writes for one row: the chosen column's text and a newline. */
  function ColumnCellLine(row: Row, columns: seq<TreeColumn>, chosen: nat): (r: string)
  {
    if |columns| == 0 then ""
    else
      var n := |columns| - 1;
      ColumnCellLine(row, columns[..n], chosen) + (if n == chosen then TextOrNull(CellText(row, n)) + "\n" else "")
  }

  /** The chosen column contributes its text and a newline, every other column nothing. */
  lemma {:induction false} ColumnCellLineIsChosenCell(row: Row, columns: seq<TreeColumn>, chosen: nat)
    ensures ColumnCellLine(row, columns, chosen) == if chosen < |columns| then TextOrNull(CellText(row, chosen)) + "\n" else ""
    decreases |columns|
  {
    if |columns| > 0 {
      ColumnCellLineIsChosenCell(row, columns[..|columns| - 1], chosen);
    }
  }

  /** The text the column-cells copy puts on the clipboard. */
  function CopiedColumnCells(rows: seq<Row>, columns: seq<TreeColumn>, chosen: nat): string
  {
    if |rows| == 0 then ""
    else CopiedColumnCells(rows[..|rows| - 1], columns, chosen) + ColumnCellLine(rows[|rows| - 1], columns, chosen)
  }

  /** The column-cells copy is one line per row holding that row's text in the chosen column. */
  lemma {:induction false} CopiedColumnCellsPerRow(rows: seq<Row>, columns: seq<TreeColumn>, chosen: nat)
    requires chosen < |columns|
    ensures |rows| > 0 ==>
              CopiedColumnCells(rows, columns, chosen)
              == CopiedColumnCells(rows[..|rows| - 1], columns, chosen) + TextOrNull(CellText(rows[|rows| - 1], chosen)) + "\n"
    ensures |rows| == 0 <==> CopiedColumnCells(rows, columns, chosen) == ""
  {
    if |rows| > 0 {
      ColumnCellLineIsChosenCell(rows[|rows| - 1], columns, chosen);
    }
  }

  /** Some column is visible. */
  predicate AnyVisible(columns: seq<TreeColumn>)
  {
    exists x :: 0 <= x < |columns| && columns[x].width > 0
  }

  // ---------------------------------------------------------------------------
  // The menu object
  // ---------------------------------------------------------------------------

  /** The right-clicked column, else the first hidden one (the search loop of handleShowColumn). */
  method FindInsertion(rightClick: Option<XColumn>, cols: seq<XColumn>) returns (insert: Option<XColumn>)
    ensures insert == InsertionColumn(rightClick, cols)
  {
    insert := rightClick;
    if insert.None? {
      var i := 0;
      while i < |cols|
        invariant 0 <= i <= |cols|
        invariant forall k :: 0 <= k < i ==> cols[k].show
      {
        if !cols[i].show {
          insert := Some(cols[i]);
          break;
        }
        i := i + 1;
      }
    }
  }

  /** Appends the checked columns, each one shown. */
  method AppendShown(front: seq<XColumn>, checked: seq<XColumn>) returns (r: seq<XColumn>)
    ensures r == front + Shown(checked)
  {
    r := front;
    for j := 0 to |checked|
      invariant r == front + Shown(checked)[..j]
    {
      assert Shown(checked)[..j + 1] == Shown(checked)[..j] + [checked[j].(show := true)];
      r := r + [checked[j].(show := true)];
    }
    assert Shown(checked)[..|checked|] == Shown(checked);
  }

  /**
   * The loop of handleShowColumn: every column that is not checked is kept
   * in order, and the checked ones, shown, go before the insertion column.
   */
  method ShowLoop(cols: seq<XColumn>, insert: Option<XColumn>, checked: seq<XColumn>) returns (newCols: seq<XColumn>)
    ensures newCols == ShowColumns(cols, insert, checked)
  {
    newCols := [];
    for i := 0 to |cols|
      invariant newCols == ShowColumns(cols[..i], insert, checked)
    {
      assert cols[..i + 1][..i] == cols[..i];
      if insert.Some? && SameColumn(cols[i], insert.value) {
        newCols := AppendShown(newCols, checked);
      }
      if !Contains(checked, cols[i]) {
        newCols := newCols + [cols[i]];
      }
    }
    assert cols[..|cols|] == cols;
  }

  /** Appends a shown copy of every checked column computed from insert. */
  method AppendCopies(front: seq<XColumn>, insert: XColumn, checked: seq<XColumn>) returns (r: seq<XColumn>)
    ensures r == front + Copies(checked, insert)
  {
    r := front;
    for j := 0 to |checked|
      invariant r == front + Copies(checked, insert)[..j]
    {
      assert Copies(checked, insert)[..j + 1] == Copies(checked, insert)[..j]
             + [checked[j].(show := true, source := Some(insert.id))];
      r := r + [checked[j].(show := true, source := Some(insert.id))];
    }
    assert Copies(checked, insert)[..|checked|] == Copies(checked, insert);
  }

  /** The loop of handleAddComputedColumn: the copies go before every column equal to insert. */
  method AddComputedLoop(cols: seq<XColumn>, insert: XColumn, checked: seq<XColumn>) returns (newCols: seq<XColumn>)
    ensures newCols == AddComputed(cols, insert, checked)
  {
    newCols := [];
    for i := 0 to |cols|
      invariant newCols == AddComputed(cols[..i], insert, checked)
    {
      assert cols[..i + 1][..i] == cols[..i];
      if SameColumn(cols[i], insert) {
        newCols := AppendCopies(newCols, insert, checked);
      }
      newCols := newCols + [cols[i]];
    }
    assert cols[..|cols|] == cols;
  }

  /**
   * The custom menu of one viewer: whether the last menu request hit the
   * header, the text last put on the clipboard, and the column list of the
   * customization it last loaded.
   */
  class CustomMenu {
    var headerMouseClick: bool
    var clipboard: Option<string>
    var columns: seq<XColumn>

    constructor(columns: seq<XColumn>)
      ensures !headerMouseClick && clipboard.None? && this.columns == columns
    {
      headerMouseClick := false;
      clipboard := None;
      this.columns := columns;
    }

    /** The menu-detect listener: records whether the request fell in the header band. */
    method MenuDetect(areaY: int, headerHeight: int, y: int)
      modifies this`headerMouseClick
      ensures headerMouseClick == HeaderClick(areaY, headerHeight, y)
    {
      headerMouseClick := areaY <= y && y < areaY + headerHeight;
    }

    /** The menu listener: the header menu after a header click, else the table menu. */
    method MenuAboutToShow(multiEdit: bool, removeEnabled: bool, editable: seq<TreeColumn>) returns (items: seq<MenuItem>)
      ensures headerMouseClick ==> items == HeaderMenu()
      ensures !headerMouseClick ==> items == TableMenu(multiEdit, removeEnabled, if multiEdit then EditMenu(editable) else [])
    {
      if headerMouseClick {
        items := HeaderMenu();
      } else {
        var edit: seq<EditEntry> := [];
        if multiEdit {
          edit := CreateEditMenu(editable);
        }
        items := TableMenu(multiEdit, removeEnabled, edit);
      }
    }

    /**
     * Builds the column multi-edit submenu: a map from header text to the
     * last column with that text, its keys sorted, then one entry per key
     * whose column is a multi-editable XViewer column.
     */
    static method CreateEditMenu(editable: seq<TreeColumn>) returns (entries: seq<EditEntry>)
      ensures entries == EditMenu(editable)
    {
      if |editable| == 0 {
        return [NoEditableColumns];
      }
      var byName, keys := IndexByName(editable);
      var names := Sort(keys);
      assert forall k :: 0 <= k < |names| ==> names[k] in byName by {
        assert multiset(names) == multiset(keys);
        forall k | 0 <= k < |names| ensures names[k] in byName {
          assert names[k] in multiset(keys);
        }
      }
      entries := AddEditEntries(names, byName);
    }

    /** One entry, in the order of the names, for each name whose column is a multi-editable XViewer column. */
    static method AddEditEntries(names: seq<string>, byName: map<string, TreeColumn>) returns (entries: seq<EditEntry>)
      requires forall k :: 0 <= k < |names| ==> names[k] in byName
      ensures entries == EntriesFor(names, byName)
    {
      entries := [];
      for i := 0 to |names|
        invariant entries == EntriesFor(names[..i], byName)
      {
        assert names[..i + 1][..i] == names[..i];
        var c := byName[names[i]];
        if c.data.Some? && c.data.value.multiEditable {
          entries := entries + [EditColumn(names[i], "Edit " + c.data.value.name)];
        }
      }
      assert names[..|names|] == names;
    }

    /** The text-to-column map of the editable columns and its keys in order of first appearance. */
    static method IndexByName(editable: seq<TreeColumn>) returns (byName: map<string, TreeColumn>, keys: seq<string>)
      ensures byName == NameMap(editable) && keys == Names(editable)
    {
      byName, keys := map[], [];
      for i := 0 to |editable|
        invariant byName == NameMap(editable[..i])
        invariant keys == Names(editable[..i])
      {
        assert editable[..i + 1][..i] == editable[..i];
        if editable[i].text !in byName {
          keys := keys + [editable[i].text];
        }
        byName := byName[editable[i].text := editable[i]];
      }
      assert editable[..|editable|] == editable;
    }

    /**
     * Row copy: with no selected rows the problem is reported and the
     * clipboard keeps its contents; otherwise the copied rows replace them.
     */
    method PerformCopy(treeColumns: seq<TreeColumn>, selection: seq<Row>) returns (outcome: Outcome)
      modifies this`clipboard
      ensures |selection| == 0 ==> outcome == Reported(NoItems) && clipboard == old(clipboard)
      ensures |selection| > 0 ==> outcome == Done && clipboard == Some(CopiedRows(selection, treeColumns))
    {
      if |selection| == 0 {
        return Reported(NoItems);
      }
      var sb := "";
      for i := 0 to |selection|
        invariant sb == CopiedRows(selection[..i], treeColumns)
      {
        assert selection[..i + 1][..i] == selection[..i];
        var strs: seq<string> := [];
        for x := 0 to |treeColumns|
          invariant strs == VisibleTexts(selection[i], treeColumns[..x])
        {
          assert treeColumns[..x + 1][..x] == treeColumns[..x];
          if treeColumns[x].width > 0 {
            var data := CellText(selection[i], x);
            if data.Some? {
              strs := strs + [data.value];
            }
          }
        }
        assert treeColumns[..|treeColumns|] == treeColumns;
        sb := sb + Join(strs, "\t") + "\n";
      }
      assert selection[..|selection|] == selection;
      clipboard := Some(sb);
      outcome := Done;
    }

    /**
     * Column-cells copy: no selected rows or no visible column is reported;
     * a cancelled column choice changes nothing; otherwise the chosen
     * column's text of every selected row replaces the clipboard contents.
     * The choice dialog only offers visible columns.
     */
    method PerformCopyColumnCells(treeColumns: seq<TreeColumn>, selection: seq<Row>, choice: Option<nat>)
      returns (outcome: Outcome)
      requires choice.Some? ==> choice.value < |treeColumns| && treeColumns[choice.value].width > 0
      modifies this`clipboard
      ensures |selection| == 0 ==> outcome == Reported(NoSelection)
      ensures |selection| > 0 && !AnyVisible(treeColumns) ==> outcome == Reported(NoColumns)
      ensures |selection| > 0 && AnyVisible(treeColumns) && choice.None? ==> outcome == Cancelled
      ensures outcome != Done ==> clipboard == old(clipboard)
      ensures outcome == Done <==> |selection| > 0 && AnyVisible(treeColumns) && choice.Some?
      ensures outcome == Done ==> clipboard == Some(CopiedColumnCells(selection, treeColumns, choice.value))
    {
      if |selection| == 0 {
        return Reported(NoSelection);
      }
      var visible := false;
      for x := 0 to |treeColumns|
        invariant visible <==> exists j :: 0 <= j < x && treeColumns[j].width > 0
      {
        if treeColumns[x].width > 0 {
          visible := true;
        }
      }
      if !visible {
        return Reported(NoColumns);
      }
      if choice.None? {
        return Cancelled;
      }
      var chosen := choice.value;
      var sb := "";
      for i := 0 to |selection|
        invariant sb == CopiedColumnCells(selection[..i], treeColumns, chosen)
      {
        assert selection[..i + 1][..i] == selection[..i];
        var line := "";
        for x := 0 to |treeColumns|
          invariant line == ColumnCellLine(selection[i], treeColumns[..x], chosen)
        {
          assert treeColumns[..x + 1][..x] == treeColumns[..x];
          if x == chosen {
            line := line + TextOrNull(CellText(selection[i], x)) + "\n";
          }
        }
        assert treeColumns[..|treeColumns|] == treeColumns;
        sb := sb + line;
      }
      assert selection[..|selection|] == selection;
      clipboard := Some(sb);
      outcome := Done;
    }

    /** The key listener: Ctrl+Shift+C copies column cells, Ctrl+C copies rows, other keys do nothing. */
    method KeyReleased(keyCode: int, stateMask: int, treeColumns: seq<TreeColumn>, selection: seq<Row>,
                       choice: Option<nat>) returns (outcome: Outcome)
      requires choice.Some? ==> choice.value < |treeColumns| && treeColumns[choice.value].width > 0
      modifies this`clipboard
      ensures KeyBinding(keyCode, stateMask) == NoKeyAction ==> outcome == Done && clipboard == old(clipboard)
      ensures KeyBinding(keyCode, stateMask) == CopyRows ==>
                if |selection| == 0 then outcome == Reported(NoItems) && clipboard == old(clipboard)
                else outcome == Done && clipboard == Some(CopiedRows(selection, treeColumns))
      ensures KeyBinding(keyCode, stateMask) == CopyColumnCells ==>
                if outcome == Done then choice.Some? && clipboard == Some(CopiedColumnCells(selection, treeColumns, choice.value))
                else clipboard == old(clipboard)
      ensures KeyBinding(keyCode, stateMask) == CopyColumnCells ==>
                (outcome == Done <==> |selection| > 0 && AnyVisible(treeColumns) && choice.Some?)
    {
      if keyCode == 'c' as int && stateMask == CONTROL + SHIFT {
        outcome := PerformCopyColumnCells(treeColumns, selection, choice);
      } else if keyCode == 'c' as int && stateMask == CONTROL {
        outcome := PerformCopy(treeColumns, selection);
      } else {
        outcome := Done;
      }
    }

    /**
     * Show columns: unless the dialog is cancelled, the checked columns are
     * moved, shown, before the insertion column (the right-clicked column,
     * else the first hidden one), which is what the loop does. When there is
     * no insertion column they go to the end of the list, as intended; the
     * loop alone would drop them (see ShowColumnsAsWrittenDropsChecked).
     */
    method HandleShowColumn(rightClick: Option<XColumn>, dialogOk: bool, checked: seq<XColumn>)
      returns (outcome: Outcome)
      modifies this`columns
      ensures !dialogOk ==> outcome == Cancelled && columns == old(columns)
      ensures dialogOk ==> outcome == Done && columns == ShowColumnsIntended(old(columns), rightClick, checked)
      ensures dialogOk && InsertionColumn(rightClick, old(columns)).Some? ==>
                columns == ShowColumns(old(columns), InsertionColumn(rightClick, old(columns)), checked)
    {
      if !dialogOk {
        return Cancelled;
      }
      var cols := columns;
      var insert := FindInsertion(rightClick, cols);
      var newCols := ShowLoop(cols, insert, checked);
      if insert.None? {
        ShowColumnsNoInsertion(cols, checked);
        newCols := newCols + Shown(checked);
      }
      columns := newCols;
      outcome := Done;
    }

    /**
     * Add computed columns before the right-clicked column. Without a
     * right-clicked column the action fails; without computed columns for
     * it the problem is reported; a cancelled dialog changes nothing.
     */
    method HandleAddComputedColumn(rightClick: Option<XColumn>, computed: seq<XColumn>, dialogOk: bool,
                                   checked: seq<XColumn>) returns (outcome: Outcome)
      modifies this`columns
      ensures rightClick.None? ==> outcome == Reported(NullColumn)
      ensures rightClick.Some? && |computed| == 0 ==> outcome == Reported(NoComputedColumns)
      ensures rightClick.Some? && |computed| > 0 && !dialogOk ==> outcome == Cancelled
      ensures outcome != Done ==> columns == old(columns)
      ensures outcome == Done <==> rightClick.Some? && |computed| > 0 && dialogOk
      ensures outcome == Done ==> columns == AddComputed(old(columns), rightClick.value, checked)
    {
      if rightClick.None? {
        return Reported(NullColumn);
      }
      var insert := rightClick.value;
      if |computed| == 0 {
        return Reported(NoComputedColumns);
      }
      if !dialogOk {
        return Cancelled;
      }
      var newCols := AddComputedLoop(columns, insert, checked);
      columns := newCols;
      outcome := Done;
    }

    /** Hide the right-clicked column; without one the action fails. */
    method HandleHideColumn(rightClick: Option<XColumn>) returns (outcome: Outcome)
      modifies this`columns
      ensures rightClick.None? ==> outcome == Reported(NullColumn) && columns == old(columns)
      ensures rightClick.Some? ==> outcome == Done && columns == HideColumn(old(columns), rightClick.value)
    {
      if rightClick.None? {
        return Reported(NullColumn);
      }
      var target := rightClick.value;
      var cols := columns;
      var newCols: seq<XColumn> := [];
      for i := 0 to |cols|
        invariant newCols == HideColumn(cols[..i], target)
      {
        assert cols[..i + 1][..i] == cols[..i];
        var c := cols[i];
        if SameColumn(c, target) {
          c := c.(show := false);
        }
        newCols := newCols + [c];
      }
      assert cols[..|cols|] == cols;
      columns := newCols;
      outcome := Done;
    }
  }
}
