# Table-tree cell geometry and XViewer custom-menu logic

This project models two pieces of the Nebula widget collection in Dafny and
proves properties of them.

**The table-tree cell** (`CTableTreeCell`, file `ctable_tree_cell.dfy`).
The cell is a class whose fields are the ones the widget updates in place:
images, text, the recorded image and text bounds, the toggle bounds, the
title height, the child span setting, the bounds given to the child control,
and the `needsLayout` and `update` flags. Its methods are the widget's:

- `ComputeSize`: the preferred size, clamped by width and height hints.
- `ComputeTitleHeight`: the title height, stored and returned.
- `Layout`: places the toggle, the images and the text, then the child area.
- `Paint`: the early return for an empty cell and the lazy layout.
- The setters: `SetImage`, `SetImages`, `SetText`, `SetChildSpan`.

Each method is proved against a specification function:

- `PreferredSize` for `ComputeSize`.
- `TitleHeight` for `ComputeTitleHeight`.
- `RowLaidOut` (sizes, positions across, positions down) for the title row.
- `ResolveChildSpan` and `ChildArea` for the child area.

The margins and spacings the cell inherits from its container cell form a
`Metrics` value. Everything the toolkit measures is passed in as a number:
image bounds, the text extent, the preferred sizes of the title and child
controls, the fixed title height of the item, the column edges, and the
cell's own index in its item.

**The XViewer custom menu** (`XViewerCustomMenu`, files `xviewer_columns.dfy`
and `xviewer_custom_menu.dfy`). A column of a customization is a record:
id, name, show flag, width, multi-edit flag, and the source column of a
computed column. A selected tree item is a row of optional texts, where a
missing text stands for Java's null. The class `CustomMenu` holds three
things: the header-click flag, the clipboard text, and the column list of the
customization it last loaded.

- The show, add-computed and hide actions rewrite the column list with loops.
  Each loop is proved equal to a list function (`ShowColumns`,
  `AddComputed`, `HideColumn`). Lemmas about those functions state placement,
  order preservation and membership.
- The column multi-edit submenu maps each header text to its column and sorts
  the texts. The lemmas prove that the entries are strictly ascending (so
  there is at most one per text), sound and complete.
- Row copy is proved to read back: splitting the copied text at newlines
  gives the lines, and splitting a line at tabs gives the row's visible texts.
- The header hit test and the key bindings are predicates over their inputs.

Support modules: `Wrappers` (the optional value standing for a nullable
reference), `Swt` (rectangles, sizes, style and modifier bits, Java's
truncating division by two) and `Strings` (joining, splitting, Java's
`String.compareTo` order, and the sort `Arrays.sort` performs).

## Model

| member | source | states |
|---|---|---|
| `CTableTreeCell.ImagesExtentMeasures` | org.eclipse.swt.nebula.widgets/src/org/eclipse/swt/nebula/widgets/ctabletree/CTableTreeCell.java:60-66 | the accumulated image width is the sum of the image widths plus one horizontal spacing between each pair of neighbours; the accumulated height is at least every image's height and equals one of them |
| `CTableTreeCell.CombinedImageBounds` | org.eclipse.swt.nebula.widgets/src/org/eclipse/swt/nebula/widgets/ctabletree/CTableTreeCell.java:58-69 | with no images the bounds are 1x1; otherwise the width is the widths plus spacings between neighbours and the height covers every image |
| `CTableTreeCell.MeasureImages` | org.eclipse.swt.nebula.widgets/src/org/eclipse/swt/nebula/widgets/ctabletree/CTableTreeCell.java:58-69 | the image loop yields exactly the combined bounds, and fails exactly when some image is disposed (its bounds cannot be read) |
| `CTableTreeCell.TextSize` | org.eclipse.swt.nebula.widgets/src/org/eclipse/swt/nebula/widgets/ctabletree/CTableTreeCell.java:71-73 | empty text measures 0x0 |
| `CTableTreeCell.ContentSize` | org.eclipse.swt.nebula.widgets/src/org/eclipse/swt/nebula/widgets/ctabletree/CTableTreeCell.java:71-76 | images and text side by side: when either width is 0 the width is the sum of the two; when both are positive one horizontal spacing separates them; the height is the larger of the two heights |
| `CTableTreeCell.TitleSize` | org.eclipse.swt.nebula.widgets/src/org/eclipse/swt/nebula/widgets/ctabletree/CTableTreeCell.java:47-78 | width at least the four horizontal margins plus the toggle when it is visible or ghosted; a fixed title height gives exactly that width and height; with a title control, that width and the four vertical margins plus the control's height; otherwise the width plus the content width and the four vertical margins plus the content height |
| `CTableTreeCell.WithChildArea` | org.eclipse.swt.nebula.widgets/src/org/eclipse/swt/nebula/widgets/ctabletree/CTableTreeCell.java:80-84 | an open cell with a child control is as wide as the margins, the toggle and the wider of title and child, and as tall as the title, the child and two child spacings; otherwise the title size |
| `CTableTreeCell.Clamp` | org.eclipse.swt.nebula.widgets/src/org/eclipse/swt/nebula/widgets/ctabletree/CTableTreeCell.java:86-91 | a DEFAULT hint leaves the size; any other hint gives the smaller of size and hint |
| `CTableTreeCell.PreferredSize` | org.eclipse.swt.nebula.widgets/src/org/eclipse/swt/nebula/widgets/ctabletree/CTableTreeCell.java:46-94 | fails exactly when images must be measured and one is disposed; otherwise the title size, widened and deepened by the child area, with each coordinate clamped by its hint; so a hint other than DEFAULT is never exceeded, and without a width hint the width covers the margins and toggle, and for an open cell with a child control also the child's width |
| `CTableTreeCell.MeasureTitle` | org.eclipse.swt.nebula.widgets/src/org/eclipse/swt/nebula/widgets/ctabletree/CTableTreeCell.java:47-78 | the title measuring steps of computeSize give `TitleSize`, and fail exactly in its failure case |
| `CTableTreeCell.MaxRectHeight` | org.eclipse.swt.nebula.widgets/src/org/eclipse/swt/nebula/widgets/ctabletree/CTableTreeCell.java:101-104 | the maximum of 0 and the recorded image heights: non-negative, at least each height, and 0 or one of them |
| `CTableTreeCell.TitleHeight` | org.eclipse.swt.nebula.widgets/src/org/eclipse/swt/nebula/widgets/ctabletree/CTableTreeCell.java:96-116 | with a hint other than DEFAULT, the smaller of the unhinted height and the hint, so the hint is never exceeded; without a hint it is the four vertical margins plus the title control's height, or else plus the maximum of the image heights and the text height (at least each, equal to one) |
| `CTableTreeCell.AlignedY` | org.eclipse.swt.nebula.widgets/src/org/eclipse/swt/nebula/widgets/ctabletree/CTableTreeCell.java:201-220 | in the default centre mode the space above and below the rectangle differ by at most one pixel |
| `CTableTreeCell.ImageRects` | org.eclipse.swt.nebula.widgets/src/org/eclipse/swt/nebula/widgets/ctabletree/CTableTreeCell.java:150-153 | a definition: one recorded bound per image, the image's bounds or 1x1 for a disposed image; `MeasureImageRects` is proved against it |
| `CTableTreeCell.MeasureImageRects` | org.eclipse.swt.nebula.widgets/src/org/eclipse/swt/nebula/widgets/ctabletree/CTableTreeCell.java:150-153 | the iBounds loop records exactly those bounds |
| `CTableTreeCell.MeasureImageRow` | org.eclipse.swt.nebula.widgets/src/org/eclipse/swt/nebula/widgets/ctabletree/CTableTreeCell.java:170-175 | the width loop adds every image width and one spacing after each image but the last, and after the last one too when there is text |
| `CTableTreeCell.ImageXStep` | org.eclipse.swt.nebula.widgets/src/org/eclipse/swt/nebula/widgets/ctabletree/CTableTreeCell.java:194-198 | each image position is the previous one plus the previous width plus one spacing |
| `CTableTreeCell.PlaceRow` | org.eclipse.swt.nebula.widgets/src/org/eclipse/swt/nebula/widgets/ctabletree/CTableTreeCell.java:194-199 | only x changes; the first image starts at the row start; each next image is the previous x plus width plus spacing; the text starts after the last image, with a spacing only when there is text |
| `CTableTreeCell.PlacedImagesIncrease` | org.eclipse.swt.nebula.widgets/src/org/eclipse/swt/nebula/widgets/ctabletree/CTableTreeCell.java:194-198 | image x positions strictly increase when every image has a width |
| `CTableTreeCell.AlignRow` | org.eclipse.swt.nebula.widgets/src/org/eclipse/swt/nebula/widgets/ctabletree/CTableTreeCell.java:204-218 | the y loops give every image the y of the vertical alignment and change nothing else |
| `CTableTreeCell.PlaceToggle` | org.eclipse.swt.nebula.widgets/src/org/eclipse/swt/nebula/widgets/ctabletree/CTableTreeCell.java:147-193 | the toggle is cut to the cell width and title height; the row starts where the horizontal alignment puts it; a shown toggle sits one pixel left of the start and the images follow it |
| `CTableTreeCell.PlaceTitleRow` | org.eclipse.swt.nebula.widgets/src/org/eclipse/swt/nebula/widgets/ctabletree/CTableTreeCell.java:147-199 | the first half of layout leaves the row's sizes and positions across as `RowSizes` and `RowAcross` describe, and every y unchanged |
| `CTableTreeCell.AlignTitleRow` | org.eclipse.swt.nebula.widgets/src/org/eclipse/swt/nebula/widgets/ctabletree/CTableTreeCell.java:201-220 | toggle, images and text get the y of the vertical mode (the toggle gets the cell's y in TOP mode) and nothing else changes |
| `CTableTreeCell.AlignedRowDown` | org.eclipse.swt.nebula.widgets/src/org/eclipse/swt/nebula/widgets/ctabletree/CTableTreeCell.java:201-220 | aligning a row placed across puts it down as `RowDown` describes |
| `CTableTreeCell.LayoutTitleRow` | org.eclipse.swt.nebula.widgets/src/org/eclipse/swt/nebula/widgets/ctabletree/CTableTreeCell.java:147-220 | the whole title row is laid out: sizes, positions across and positions down |
| `CTableTreeCell.RightAlignedTextEnd` | org.eclipse.swt.nebula.widgets/src/org/eclipse/swt/nebula/widgets/ctabletree/CTableTreeCell.java:184-185 | with RIGHT alignment the text ends at the cell's right edge less the right margins and the indent |
| `CTableTreeCell.LeftAlignedRowStart` | org.eclipse.swt.nebula.widgets/src/org/eclipse/swt/nebula/widgets/ctabletree/CTableTreeCell.java:186-193 | with LEFT alignment the first element of the row starts after the indent and the left margins |
| `CTableTreeCell.ToggleWithinCell` | org.eclipse.swt.nebula.widgets/src/org/eclipse/swt/nebula/widgets/ctabletree/CTableTreeCell.java:147-148 | after layout the toggle is no wider than the cell or the toggle width and no taller than the cell or the title height |
| `CTableTreeCell.ResolveChildSpan` | org.eclipse.swt.nebula.widgets/src/org/eclipse/swt/nebula/widgets/ctabletree/CTableTreeCell.java:230-237 | no span exactly when the start is at or past the column count; a negative start means the cell's own index; a negative length means the last column; otherwise the end is start + len - 1; the end never passes the last column |
| `CTableTreeCell.DefaultSpanIsOwnColumn` | org.eclipse.swt.nebula.widgets/src/org/eclipse/swt/nebula/widgets/ctabletree/CTableTreeCell.java:38-39 | the default span (-1, 1) covers exactly the cell's own column |
| `CTableTreeCell.FullSpanCoversAllColumns` | org.eclipse.swt.nebula.widgets/src/org/eclipse/swt/nebula/widgets/ctabletree/CTableTreeCell.java:315-330 | the span (0, -1) covers every column |
| `CTableTreeCell.ExplicitSpanWithinRequest` | org.eclipse.swt.nebula.widgets/src/org/eclipse/swt/nebula/widgets/ctabletree/CTableTreeCell.java:234-237 | an explicit start and length cover between one and `len` columns, from that start |
| `CTableTreeCell.ChildArea` | org.eclipse.swt.nebula.widgets/src/org/eclipse/swt/nebula/widgets/ctabletree/CTableTreeCell.java:229-253 | closed, or starting at or past the column count: the zero rectangle; otherwise the area runs from the start column's left edge (or just right of the toggle for the own column) to the last column's right edge less the right indent, and from one child spacing below the title to one child spacing above the cell's bottom; it fails exactly when the resolved last column index is negative (the column lookup of line 242 cannot succeed) |
| `CTableTreeCell.ChildAreaPlacedForValidSpan` | org.eclipse.swt.nebula.widgets/src/org/eclipse/swt/nebula/widgets/ctabletree/CTableTreeCell.java:229-242 | with at least one column, a positive length or -1, and a non-negative start or own index, the child area is always placed |
| `CTableTreeCell.Cell.constructor` | org.eclipse.swt.nebula.widgets/src/org/eclipse/swt/nebula/widgets/ctabletree/CTableTreeCell.java:32-43 | no images, no text, empty bounds, child span (-1, 1) |
| `CTableTreeCell.Cell.GetImage` | org.eclipse.swt.nebula.widgets/src/org/eclipse/swt/nebula/widgets/ctabletree/CTableTreeCell.java:131-134 | a definition: null exactly when there are no images, else the first image; `SetImage` is proved to round-trip through it |
| `CTableTreeCell.Cell.ComputeSize` | org.eclipse.swt.nebula.widgets/src/org/eclipse/swt/nebula/widgets/ctabletree/CTableTreeCell.java:46-94 | returns `PreferredSize` of the cell's state; the hints are never exceeded |
| `CTableTreeCell.Cell.ComputeTitleHeight` | org.eclipse.swt.nebula.widgets/src/org/eclipse/swt/nebula/widgets/ctabletree/CTableTreeCell.java:96-116 | stores and returns `TitleHeight` of the recorded image bounds |
| `CTableTreeCell.Cell.LayoutTitle` | org.eclipse.swt.nebula.widgets/src/org/eclipse/swt/nebula/widgets/ctabletree/CTableTreeCell.java:144-220 | takes the fixed title height when the item has one, then leaves toggle, image and text bounds as `RowLaidOut` describes |
| `CTableTreeCell.Cell.LayoutChild` | org.eclipse.swt.nebula.widgets/src/org/eclipse/swt/nebula/widgets/ctabletree/CTableTreeCell.java:229-255 | with a child control its bounds become `ChildArea`'s; a failing column lookup leaves them and reports the column; `needsLayout` is false unless the lookup failed |
| `CTableTreeCell.Cell.Layout` | org.eclipse.swt.nebula.widgets/src/org/eclipse/swt/nebula/widgets/ctabletree/CTableTreeCell.java:144-256 | the title row and then the child area are laid out as above; afterwards `needsLayout` is false unless a column lookup failed |
| `CTableTreeCell.Cell.Paint` | org.eclipse.swt.nebula.widgets/src/org/eclipse/swt/nebula/widgets/ctabletree/CTableTreeCell.java:258-264 | an empty cell, or one not needing layout, is left unchanged; otherwise it is laid out first, with every postcondition of `Layout` (title height, title row, child area, failure); only the fields layout writes may change |
| `CTableTreeCell.Cell.SetImage` | org.eclipse.swt.nebula.widgets/src/org/eclipse/swt/nebula/widgets/ctabletree/CTableTreeCell.java:295-298 | null gives no images, an image gives exactly that one; at most one image, which `GetImage` returns |
| `CTableTreeCell.Cell.SetImages` | org.eclipse.swt.nebula.widgets/src/org/eclipse/swt/nebula/widgets/ctabletree/CTableTreeCell.java:300-313 | null gives no images; an array with a null or disposed image leaves the images unchanged; otherwise it becomes the images; the cell is marked for update |
| `CTableTreeCell.Cell.SetChildSpan` | org.eclipse.swt.nebula.widgets/src/org/eclipse/swt/nebula/widgets/ctabletree/CTableTreeCell.java:331-334 | the span setting becomes (start, len) |
| `CTableTreeCell.Cell.SetText` | org.eclipse.swt.nebula.widgets/src/org/eclipse/swt/nebula/widgets/ctabletree/CTableTreeCell.java:336-342 | null or the current text changes nothing; another text becomes the text and marks the cell for update |
| `XViewerColumns.Shown` | widgets/xviewer/org.eclipse.nebula.widgets.xviewer/src/org/eclipse/nebula/widgets/xviewer/customize/XViewerCustomMenu.java:354-358 | a definition: the checked columns, in order, with the show flag set; `AppendShown` and `ShowColumnsPlacement` build on it |
| `XViewerColumns.Unchecked` | widgets/xviewer/org.eclipse.nebula.widgets.xviewer/src/org/eclipse/nebula/widgets/xviewer/customize/XViewerCustomMenu.java:360-362 | never longer than the list it filters |
| `XViewerColumns.UncheckedPositions` | widgets/xviewer/org.eclipse.nebula.widgets.xviewer/src/org/eclipse/nebula/widgets/xviewer/customize/XViewerCustomMenu.java:360-362 | the kept columns are exactly the unchecked ones: their number is the count of unchecked columns, and the unchecked column at position k is at the count of unchecked columns before k |
| `XViewerColumns.UncheckedCountGrows` | widgets/xviewer/org.eclipse.nebula.widgets.xviewer/src/org/eclipse/nebula/widgets/xviewer/customize/XViewerCustomMenu.java:360-362 | an unchecked column has fewer unchecked columns before it than any later position has, so the kept columns keep their order |
| `XViewerColumns.UncheckedAvoidsChecked` | widgets/xviewer/org.eclipse.nebula.widgets.xviewer/src/org/eclipse/nebula/widgets/xviewer/customize/XViewerCustomMenu.java:360-362 | no kept column is a checked column |
| `XViewerColumns.UncheckedIsFilter` | widgets/xviewer/org.eclipse.nebula.widgets.xviewer/src/org/eclipse/nebula/widgets/xviewer/customize/XViewerCustomMenu.java:360-362 | every kept column comes from the original list |
| `XViewerColumns.ShowColumnsShowsChecked` | widgets/xviewer/org.eclipse.nebula.widgets.xviewer/src/org/eclipse/nebula/widgets/xviewer/customize/XViewerCustomMenu.java:352-363 | every checked column in the result has its show flag set |
| `XViewerColumns.ShowColumnsNoInsertion` | widgets/xviewer/org.eclipse.nebula.widgets.xviewer/src/org/eclipse/nebula/widgets/xviewer/customize/XViewerCustomMenu.java:352-363 | without an insertion column the loop only drops the checked columns |
| `XViewerColumns.ShowColumnsWithoutInsert` | widgets/xviewer/org.eclipse.nebula.widgets.xviewer/src/org/eclipse/nebula/widgets/xviewer/customize/XViewerCustomMenu.java:352-363 | when the insertion column is not in the list, the loop only drops the checked columns |
| `XViewerColumns.ShowColumnsPlacement` | widgets/xviewer/org.eclipse.nebula.widgets.xviewer/src/org/eclipse/nebula/widgets/xviewer/customize/XViewerCustomMenu.java:352-363 | with the insertion column at one position: the unchecked columns before it, the shown checked columns, the insertion column unless checked, the unchecked columns after it; no checked column stays at its old place |
| `XViewerColumns.ShowColumnsKeepsUncheckedOrder` | widgets/xviewer/org.eclipse.nebula.widgets.xviewer/src/org/eclipse/nebula/widgets/xviewer/customize/XViewerCustomMenu.java:352-363 | the unchecked columns of the result are those of the original list, in the same order |
| `XViewerColumns.ShowColumnsKeepsChecked` | widgets/xviewer/org.eclipse.nebula.widgets.xviewer/src/org/eclipse/nebula/widgets/xviewer/customize/XViewerCustomMenu.java:352-363 | when the insertion column is in the list, every checked column appears in the result, shown |
| `XViewerColumns.FirstHidden` | widgets/xviewer/org.eclipse.nebula.widgets.xviewer/src/org/eclipse/nebula/widgets/xviewer/customize/XViewerCustomMenu.java:343-350 | none exactly when every column is shown; otherwise the index of a hidden column with only shown columns before it |
| `XViewerColumns.InsertionColumn` | widgets/xviewer/org.eclipse.nebula.widgets.xviewer/src/org/eclipse/nebula/widgets/xviewer/customize/XViewerCustomMenu.java:329-350 | the right-clicked column when there is one; otherwise none exactly when every column is shown, else a hidden column of the list |
| `XViewerColumns.ShowColumnsAsWrittenDropsChecked` | widgets/xviewer/org.eclipse.nebula.widgets.xviewer/src/org/eclipse/nebula/widgets/xviewer/customize/XViewerCustomMenu.java:342-363 | as written, with nothing right-clicked and every column shown, a checked column is removed from the list instead of being added at the end |
| `XViewerColumns.ShowColumnsIntended` | widgets/xviewer/org.eclipse.nebula.widgets.xviewer/src/org/eclipse/nebula/widgets/xviewer/customize/XViewerCustomMenu.java:342-363 | the show loop's result when there is an insertion column, else the unchecked columns followed by the shown checked ones |
| `XViewerColumns.ShowColumnsIntendedKeepsChecked` | widgets/xviewer/org.eclipse.nebula.widgets.xviewer/src/org/eclipse/nebula/widgets/xviewer/customize/XViewerCustomMenu.java:342-363 | showing as intended keeps every checked column, shown, and keeps the unchecked columns in order |
| `XViewerColumns.Copies` | widgets/xviewer/org.eclipse.nebula.widgets.xviewer/src/org/eclipse/nebula/widgets/xviewer/customize/XViewerCustomMenu.java:391-397 | a definition: one copy per checked computed column, in order, shown and with the insertion column as its source; `AppendCopies` and `AddComputedPlacement` build on it |
| `XViewerColumns.AddComputedAbsent` | widgets/xviewer/org.eclipse.nebula.widgets.xviewer/src/org/eclipse/nebula/widgets/xviewer/customize/XViewerCustomMenu.java:389-400 | when the insertion column is not in the list, the list is unchanged |
| `XViewerColumns.AddComputedPlacement` | widgets/xviewer/org.eclipse.nebula.widgets.xviewer/src/org/eclipse/nebula/widgets/xviewer/customize/XViewerCustomMenu.java:389-400 | with the insertion column at one position, every original column is kept in order and the copies sit directly before the insertion column |
| `XViewerColumns.HideColumn` | widgets/xviewer/org.eclipse.nebula.widgets.xviewer/src/org/eclipse/nebula/widgets/xviewer/customize/XViewerCustomMenu.java:465-470 | same length; the matching columns get their show flag cleared and every other column is unchanged |
| `XViewerColumns.HideColumnKeepsOrder` | widgets/xviewer/org.eclipse.nebula.widgets.xviewer/src/org/eclipse/nebula/widgets/xviewer/customize/XViewerCustomMenu.java:465-470 | only show flags change, and a column is shown afterwards exactly when it was shown and is not the hidden one |
| `XViewerColumns.HideColumnIdempotent` | widgets/xviewer/org.eclipse.nebula.widgets.xviewer/src/org/eclipse/nebula/widgets/xviewer/customize/XViewerCustomMenu.java:465-470 | hiding a column twice is hiding it once |
| `XViewerColumns.HideThenShowInsertsThere` | widgets/xviewer/org.eclipse.nebula.widgets.xviewer/src/org/eclipse/nebula/widgets/xviewer/customize/XViewerCustomMenu.java:343-350 | in a fully shown list, after hiding a column the show action without a right-click inserts before that column |
| `XViewerCustomMenu.HeaderClick` | widgets/xviewer/org.eclipse.nebula.widgets.xviewer/src/org/eclipse/nebula/widgets/xviewer/customize/XViewerCustomMenu.java:130 | a definition: a header click exactly when the client area's y is at most y and y is less than that y plus the header height; `HeaderBandIsInterval` states its shape |
| `XViewerCustomMenu.HeaderBandIsInterval` | widgets/xviewer/org.eclipse.nebula.widgets.xviewer/src/org/eclipse/nebula/widgets/xviewer/customize/XViewerCustomMenu.java:130 | the header band is a half-open interval: closed under betweenness, holding its lower end and not its upper end |
| `XViewerCustomMenu.KeyBinding` | widgets/xviewer/org.eclipse.nebula.widgets.xviewer/src/org/eclipse/nebula/widgets/xviewer/customize/XViewerCustomMenu.java:570-574 | column-cell copy exactly for 'c' with exactly Ctrl+Shift, row copy exactly for 'c' with exactly Ctrl; never both |
| `XViewerCustomMenu.HeaderMenu` | widgets/xviewer/org.eclipse.nebula.widgets.xviewer/src/org/eclipse/nebula/widgets/xviewer/customize/XViewerCustomMenu.java:135-149 | holds show, hide and add-computed, and neither an edit submenu nor either remove entry |
| `XViewerCustomMenu.TableMenu` | widgets/xviewer/org.eclipse.nebula.widgets.xviewer/src/org/eclipse/nebula/widgets/xviewer/customize/XViewerCustomMenu.java:151-175 | bracketed by the pre and post group markers; the edit submenu only when multi-edit is enabled; the remove entries, last before the post marker, only when removing items is enabled |
| `XViewerCustomMenu.NameMap` | widgets/xviewer/org.eclipse.nebula.widgets.xviewer/src/org/eclipse/nebula/widgets/xviewer/customize/XViewerCustomMenu.java:197-200 | keys are exactly the header texts of the editable columns; each maps to one of those columns carrying that text |
| `XViewerCustomMenu.NameMapLastWins` | widgets/xviewer/org.eclipse.nebula.widgets.xviewer/src/org/eclipse/nebula/widgets/xviewer/customize/XViewerCustomMenu.java:198-200 | a text maps to the last column visited that carries it |
| `XViewerCustomMenu.Names` | widgets/xviewer/org.eclipse.nebula.widgets.xviewer/src/org/eclipse/nebula/widgets/xviewer/customize/XViewerCustomMenu.java:201 | the key set: distinct texts, exactly the keys of the map |
| `XViewerCustomMenu.EntriesFor` | widgets/xviewer/org.eclipse.nebula.widgets.xviewer/src/org/eclipse/nebula/widgets/xviewer/customize/XViewerCustomMenu.java:203-218 | every entry is for one of the names, whose column is a multi-editable XViewer column, captioned "Edit " and its name |
| `XViewerCustomMenu.EntriesForComplete` | widgets/xviewer/org.eclipse.nebula.widgets.xviewer/src/org/eclipse/nebula/widgets/xviewer/customize/XViewerCustomMenu.java:203-218 | every name whose column is multi-editable gets an entry |
| `XViewerCustomMenu.EntriesForSorted` | widgets/xviewer/org.eclipse.nebula.widgets.xviewer/src/org/eclipse/nebula/widgets/xviewer/customize/XViewerCustomMenu.java:202-218 | entries follow the order of strictly sorted names |
| `XViewerCustomMenu.EditMenu` | widgets/xviewer/org.eclipse.nebula.widgets.xviewer/src/org/eclipse/nebula/widgets/xviewer/customize/XViewerCustomMenu.java:185-221 | exactly the single "No Editable Columns" entry when there are no editable columns |
| `XViewerCustomMenu.SortedNamesAreKeys` | widgets/xviewer/org.eclipse.nebula.widgets.xviewer/src/org/eclipse/nebula/widgets/xviewer/customize/XViewerCustomMenu.java:201-202 | the sorted names are exactly the map's keys |
| `XViewerCustomMenu.EditMenuSorted` | widgets/xviewer/org.eclipse.nebula.widgets.xviewer/src/org/eclipse/nebula/widgets/xviewer/customize/XViewerCustomMenu.java:197-218 | the entries are in strictly ascending order of their texts, so no text has two |
| `XViewerCustomMenu.EditMenuSound` | widgets/xviewer/org.eclipse.nebula.widgets.xviewer/src/org/eclipse/nebula/widgets/xviewer/customize/XViewerCustomMenu.java:203-218 | every entry edits a multi-editable XViewer column carrying its text, captioned with that column's name |
| `XViewerCustomMenu.EditMenuComplete` | widgets/xviewer/org.eclipse.nebula.widgets.xviewer/src/org/eclipse/nebula/widgets/xviewer/customize/XViewerCustomMenu.java:203-218 | every text whose column is a multi-editable XViewer column gets an entry |
| `XViewerCustomMenu.VisibleTexts` | widgets/xviewer/org.eclipse.nebula.widgets.xviewer/src/org/eclipse/nebula/widgets/xviewer/customize/XViewerCustomMenu.java:719-727 | no more texts than columns, each the non-null text of a column of width > 0; the exact contents are in `VisibleTextsPositions` |
| `XViewerCustomMenu.VisibleTextsPositions` | widgets/xviewer/org.eclipse.nebula.widgets.xviewer/src/org/eclipse/nebula/widgets/xviewer/customize/XViewerCustomMenu.java:719-727 | the copied texts are exactly the non-null texts of the columns of width > 0: their number is the count of such columns, and the text of such a column x is at the count of such columns before x |
| `XViewerCustomMenu.ShownCountGrows` | widgets/xviewer/org.eclipse.nebula.widgets.xviewer/src/org/eclipse/nebula/widgets/xviewer/customize/XViewerCustomMenu.java:719-727 | a visible column with a text has fewer such columns before it than any later column has, so the texts keep column order |
| `XViewerCustomMenu.CopiedRows` | widgets/xviewer/org.eclipse.nebula.widgets.xviewer/src/org/eclipse/nebula/widgets/xviewer/customize/XViewerCustomMenu.java:716-731 | a non-empty selection gives a text ending in a newline |
| `XViewerCustomMenu.CopiedRowsAreLines` | widgets/xviewer/org.eclipse.nebula.widgets.xviewer/src/org/eclipse/nebula/widgets/xviewer/customize/XViewerCustomMenu.java:716-731 | the copied text is the tab-joined lines joined by newlines, plus a final newline |
| `XViewerCustomMenu.CopiedRowsReadBack` | widgets/xviewer/org.eclipse.nebula.widgets.xviewer/src/org/eclipse/nebula/widgets/xviewer/customize/XViewerCustomMenu.java:718-731 | for texts without tabs or newlines, splitting the copy at newlines gives the lines and an empty rest, and splitting a line at tabs gives the row's visible texts |
| `XViewerCustomMenu.ColumnCellLineIsChosenCell` | widgets/xviewer/org.eclipse.nebula.widgets.xviewer/src/org/eclipse/nebula/widgets/xviewer/customize/XViewerCustomMenu.java:692-698 | for one row only the chosen column writes, its text ("null" for a null text) and a newline |
| `XViewerCustomMenu.CopiedColumnCellsPerRow` | widgets/xviewer/org.eclipse.nebula.widgets.xviewer/src/org/eclipse/nebula/widgets/xviewer/customize/XViewerCustomMenu.java:691-700 | the column-cells copy is one line per selected row, holding the row's text in the chosen column; empty exactly for no rows |
| `XViewerCustomMenu.FindInsertion` | widgets/xviewer/org.eclipse.nebula.widgets.xviewer/src/org/eclipse/nebula/widgets/xviewer/customize/XViewerCustomMenu.java:343-350 | the search loop finds `InsertionColumn` |
| `XViewerCustomMenu.AppendShown` | widgets/xviewer/org.eclipse.nebula.widgets.xviewer/src/org/eclipse/nebula/widgets/xviewer/customize/XViewerCustomMenu.java:354-358 | the inner loop appends the shown checked columns |
| `XViewerCustomMenu.ShowLoop` | widgets/xviewer/org.eclipse.nebula.widgets.xviewer/src/org/eclipse/nebula/widgets/xviewer/customize/XViewerCustomMenu.java:352-363 | the show loop builds `ShowColumns` |
| `XViewerCustomMenu.AppendCopies` | widgets/xviewer/org.eclipse.nebula.widgets.xviewer/src/org/eclipse/nebula/widgets/xviewer/customize/XViewerCustomMenu.java:391-397 | the inner loop appends the copies |
| `XViewerCustomMenu.AddComputedLoop` | widgets/xviewer/org.eclipse.nebula.widgets.xviewer/src/org/eclipse/nebula/widgets/xviewer/customize/XViewerCustomMenu.java:389-400 | the add-computed loop builds `AddComputed` |
| `XViewerCustomMenu.CustomMenu.constructor` | widgets/xviewer/org.eclipse.nebula.widgets.xviewer/src/org/eclipse/nebula/widgets/xviewer/customize/XViewerCustomMenu.java:91-99 | no header click recorded, clipboard empty |
| `XViewerCustomMenu.CustomMenu.MenuDetect` | widgets/xviewer/org.eclipse.nebula.widgets.xviewer/src/org/eclipse/nebula/widgets/xviewer/customize/XViewerCustomMenu.java:125-131 | records `HeaderClick` of the request |
| `XViewerCustomMenu.CustomMenu.MenuAboutToShow` | widgets/xviewer/org.eclipse.nebula.widgets.xviewer/src/org/eclipse/nebula/widgets/xviewer/customize/XViewerCustomMenu.java:113-124 | the header menu after a header click, else the table menu with the edit submenu built when multi-edit is enabled |
| `XViewerCustomMenu.CustomMenu.CreateEditMenu` | widgets/xviewer/org.eclipse.nebula.widgets.xviewer/src/org/eclipse/nebula/widgets/xviewer/customize/XViewerCustomMenu.java:185-221 | builds `EditMenu` with a map, a sort and a loop |
| `XViewerCustomMenu.CustomMenu.AddEditEntries` | widgets/xviewer/org.eclipse.nebula.widgets.xviewer/src/org/eclipse/nebula/widgets/xviewer/customize/XViewerCustomMenu.java:203-218 | the entry loop builds `EntriesFor` |
| `XViewerCustomMenu.CustomMenu.IndexByName` | widgets/xviewer/org.eclipse.nebula.widgets.xviewer/src/org/eclipse/nebula/widgets/xviewer/customize/XViewerCustomMenu.java:197-201 | the map loop builds `NameMap` and its key set |
| `XViewerCustomMenu.CustomMenu.PerformCopy` | widgets/xviewer/org.eclipse.nebula.widgets.xviewer/src/org/eclipse/nebula/widgets/xviewer/customize/XViewerCustomMenu.java:708-738 | an empty selection is reported and the clipboard is untouched; otherwise the clipboard holds `CopiedRows` |
| `XViewerCustomMenu.CustomMenu.PerformCopyColumnCells` | widgets/xviewer/org.eclipse.nebula.widgets.xviewer/src/org/eclipse/nebula/widgets/xviewer/customize/XViewerCustomMenu.java:655-706 | no selection, no visible column and a cancelled choice each leave the clipboard untouched; otherwise it holds the chosen column's cells |
| `XViewerCustomMenu.CustomMenu.KeyReleased` | widgets/xviewer/org.eclipse.nebula.widgets.xviewer/src/org/eclipse/nebula/widgets/xviewer/customize/XViewerCustomMenu.java:562-576 | other keys change nothing; Ctrl+C with a selection completes and puts `CopiedRows` on the clipboard, and with none reports it; Ctrl+Shift+C completes exactly when there is a selection, a visible column and a chosen column, and then puts `CopiedColumnCells` on the clipboard, else leaves it |
| `XViewerCustomMenu.CustomMenu.HandleShowColumn` | widgets/xviewer/org.eclipse.nebula.widgets.xviewer/src/org/eclipse/nebula/widgets/xviewer/customize/XViewerCustomMenu.java:328-368 | a cancelled dialog changes nothing; with an insertion column the columns become what the loop builds (`ShowColumns`); without one they become the corrected `ShowColumnsIntended` (see Findings) |
| `XViewerCustomMenu.CustomMenu.HandleAddComputedColumn` | widgets/xviewer/org.eclipse.nebula.widgets.xviewer/src/org/eclipse/nebula/widgets/xviewer/customize/XViewerCustomMenu.java:370-405 | no right-clicked column fails, no computed columns is reported, a cancelled dialog does nothing, each leaving the columns unchanged; otherwise the columns become `AddComputed` of the old ones |
| `XViewerCustomMenu.CustomMenu.HandleHideColumn` | widgets/xviewer/org.eclipse.nebula.widgets.xviewer/src/org/eclipse/nebula/widgets/xviewer/customize/XViewerCustomMenu.java:458-474 | without a right-clicked column it fails and nothing changes; otherwise the columns become `HideColumn` of the old ones |
| `Strings.Sort` | widgets/xviewer/org.eclipse.nebula.widgets.xviewer/src/org/eclipse/nebula/widgets/xviewer/customize/XViewerCustomMenu.java:202 | the sorted names are a permutation of the names |
| `Strings.SortStrictlySorted` | widgets/xviewer/org.eclipse.nebula.widgets.xviewer/src/org/eclipse/nebula/widgets/xviewer/customize/XViewerCustomMenu.java:201-202 | sorting distinct names puts them in strictly ascending compareTo order |
| `Strings.SplitJoin` | widgets/xviewer/org.eclipse.nebula.widgets.xviewer/src/org/eclipse/nebula/widgets/xviewer/customize/XViewerCustomMenu.java:728 | joining with a one-character separator that no element holds, then splitting at it, gives the elements back |

## Left out

- XViewerCustomMenu.CustomMenu.HandleShowColumn: when nothing was right-clicked and every column is shown, it appends the checked columns at the end, as the comment on XViewerCustomMenu.java line 342 intends. The code as written drops them instead; `ShowColumnsAsWrittenDropsChecked` exhibits that, and `ShowLoop` models the loop as written.
- CTableTreeCell.Cell.SetImages: the cell keeps a copy of the images, not the caller's array. Aliasing of that array is not modelled, so a later write by the caller cannot reach the cell, and the cell's images never hold null (CTableTreeCell.java line 152 copes with null images).
- CTableTreeCell.Cell.constructor: `CContainerCell` is not part of this model. The inherited fields `open`, `toggleVisible`, `ghostToggle`, `needsLayout` and `update` are assumed to start with Java's default value, false.
- Drawing is not modelled: filling the background, drawing images, text and the toggle, colours, and redraw requests (`container.redraw` in `setImages` and `setText`).
- The toolkit's measurements are inputs, not computed: text extents, image bounds, the preferred sizes of the title and child controls, column edges, and the cell's index in its item (`indexOf(this)`).
- Placing the title control (`titleArea.setBounds` and `layout`, CTableTreeCell.java lines 223-227) is not modelled.
- `getChildSpan` and `getImages` only return a field and are not modelled. `GetText` has no contract of its own: the text is a non-null string type, so "never null" holds by typing; `SetText` states its effect through it.
- The BOTTOM vertical alignment is modelled literally, subtracting the y each rectangle held before. No alignment property is claimed for it.
- Java `int` overflow in the size sums is not modelled: dimensions are unbounded integers.
- `CTableTreeCell.PlacedImagesIncrease`: strict increase is proved only when every image has a positive width. The layout itself gives no such guarantee for a zero-width image with zero spacing.
- A disposed image makes `Image.getBounds` throw in the toolkit. The model turns this into a failure result of `computeSize`.
- A column lookup outside the container makes `getColumn` throw. The model turns this into a failure result of `layout`, before `needsLayout` is cleared.
- Dialogs are inputs: the checked columns, whether the dialog was confirmed, and the column chosen for the column-cells copy. The same holds for popups, `MenuManager`/`Action` objects, listeners, the clipboard object (a text field here) and `Display.map` (the y is given in tree coordinates).
- `XViewerColumn.equals` is not part of this model. Columns are compared by id.
- `CollectionsUtil.toString` is not part of this model. Joining with a separator is assumed, and a list of one text is assumed to yield that text.
- `loadCustomization` and `refresh` are not part of this model. Loading a customization is modelled as replacing the menu's column list.
- The menu's other actions are not modelled: sum, unique values, filter by value, filter by column, remove selected, remove non-selected, copy or view the selected cell, table properties, and the report. They consist of dialogs and calls into code that is not part of this model.
- `Strings.LexLess` compares characters as Dafny characters. Java compares UTF-16 code units, which orders characters outside the Basic Multilingual Plane differently.
- Which column a header text maps to, when several editable columns share a text, depends on the iteration order of the editable set. The model takes that order as a given sequence.

## Findings

| source | as written | input that shows it | evidently intended | confidence | as-written member | corrected member |
|---|---|---|---|---|---|---|
| widgets/xviewer/org.eclipse.nebula.widgets.xviewer/src/org/eclipse/nebula/widgets/xviewer/customize/XViewerCustomMenu.java:342-363 | with no right-clicked column and no hidden column the insertion column stays null, so the checked columns are dropped from the list | columns a and b both shown, nothing right-clicked, b checked: the list becomes [a] | the comment on line 342 says new columns go at the end of the list | medium; not executed | `XViewerColumns.ShowColumnsAsWrittenDropsChecked` | `XViewerColumns.ShowColumnsIntendedKeepsChecked` |
