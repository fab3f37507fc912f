/**
 * The column list of an XViewer customization and the three ways the custom
 * menu rewrites it: showing checked columns before an insertion column,
 * inserting shown copies of computed columns before their source column,
 * and hiding one column.
 */
module XViewerColumns {
  import opened Wrappers

  /**
   * An XViewer column as the customization stores it. `source` is the id of
   * the column a computed column was derived from.
   */
  datatype XColumn = XColumn(id: string, name: string, show: bool, width: int,
                             multiEditable: bool, source: Option<string>)

  /** Column equality as the customization compares columns: by id. */
  predicate SameColumn(a: XColumn, b: XColumn)
  {
    a.id == b.id
  }

  /** List.contains under SameColumn. */
  predicate Contains(cols: seq<XColumn>, c: XColumn)
  {
    exists k :: 0 <= k < |cols| && SameColumn(cols[k], c)
  }

  /** The checked columns with their show flag set. */
  function Shown(checked: seq<XColumn>): (r: seq<XColumn>)
    ensures |r| == |checked|
    ensures forall k :: 0 <= k < |r| ==> r[k] == checked[k].(show := true)
  {
    seq(|checked|, k requires 0 <= k < |checked| => checked[k].(show := true))
  }

  /** The columns that are not checked, in their order. */
  function Unchecked(cols: seq<XColumn>, checked: seq<XColumn>): (r: seq<XColumn>)
    ensures |r| <= |cols|
  {
    if |cols| == 0 then []
    else
      var c := cols[|cols| - 1];
      Unchecked(cols[..|cols| - 1], checked) + (if Contains(checked, c) then [] else [c])
  }

  /** No column of Unchecked(cols, checked) is checked. */
  lemma {:induction false} UncheckedAvoidsChecked(cols: seq<XColumn>, checked: seq<XColumn>)
    ensures forall k :: 0 <= k < |Unchecked(cols, checked)| ==> !Contains(checked, Unchecked(cols, checked)[k])
    decreases |cols|
  {
    if |cols| > 0 {
      var init := cols[..|cols| - 1];
      UncheckedAvoidsChecked(init, checked);
      var u, r := Unchecked(init, checked), Unchecked(cols, checked);
      forall k | 0 <= k < |r| ensures !Contains(checked, r[k]) {
        if k < |u| {
          assert r[k] == u[k];
        }
      }
    }
  }

  lemma {:induction false} UncheckedAppend(a: seq<XColumn>, b: seq<XColumn>, checked: seq<XColumn>)
    ensures Unchecked(a + b, checked) == Unchecked(a, checked) + Unchecked(b, checked)
    decreases |b|
  {
    if |b| == 0 {
      assert a + b == a;
    } else {
      var b' := b[..|b| - 1];
      assert (a + b)[..|a + b| - 1] == a + b';
      UncheckedAppend(a, b', checked);
    }
  }

  /** How many of the first n columns are not checked. */
  function UncheckedCount(cols: seq<XColumn>, checked: seq<XColumn>, n: nat): nat
    requires n <= |cols|
  {
    if n == 0 then 0 else UncheckedCount(cols, checked, n - 1) + (if Contains(checked, cols[n - 1]) then 0 else 1)
  }

  /** The count over a prefix of the list is the count over the list, up to the prefix's end. */
  lemma {:induction false} UncheckedCountPrefix(cols: seq<XColumn>, checked: seq<XColumn>, m: nat, k: nat)
    requires k <= m <= |cols|
    ensures UncheckedCount(cols[..m], checked, k) == UncheckedCount(cols, checked, k)
    decreases k
  {
    if k > 0 {
      UncheckedCountPrefix(cols, checked, m, k - 1);
      assert cols[..m][k - 1] == cols[k - 1];
    }
  }

  /** An unchecked column has fewer unchecked columns before it than any later column has. */
  lemma {:induction false} UncheckedCountGrows(cols: seq<XColumn>, checked: seq<XColumn>, j: nat, k: nat)
    requires j < k <= |cols| && !Contains(checked, cols[j])
    ensures UncheckedCount(cols, checked, j) < UncheckedCount(cols, checked, k)
    decreases k
  {
    if j + 1 < k {
      UncheckedCountGrows(cols, checked, j, k - 1);
    }
  }

  /** The length of Unchecked(cols, checked) is the number of unchecked columns. */
  lemma {:induction false} UncheckedLength(cols: seq<XColumn>, checked: seq<XColumn>)
    ensures |Unchecked(cols, checked)| == UncheckedCount(cols, checked, |cols|)
    decreases |cols|
  {
    if |cols| > 0 {
      var n := |cols| - 1;
      UncheckedLength(cols[..n], checked);
      UncheckedCountPrefix(cols, checked, n, n);
    }
  }

  /** The unchecked column at position k sits at the number of unchecked columns before k. */
  lemma {:induction false} UncheckedAt(cols: seq<XColumn>, checked: seq<XColumn>, k: nat)
    requires k < |cols| && !Contains(checked, cols[k])
    ensures UncheckedCount(cols, checked, k) < |Unchecked(cols, checked)|
    ensures Unchecked(cols, checked)[UncheckedCount(cols, checked, k)] == cols[k]
    decreases |cols|
  {
    var n := |cols| - 1;
    var init := cols[..n];
    var u := Unchecked(init, checked);
    UncheckedLength(init, checked);
    UncheckedCountPrefix(cols, checked, n, k);
    if k < n {
      assert init[k] == cols[k];
      UncheckedAt(init, checked, k);
    } else {
      UncheckedCountPrefix(cols, checked, n, n);
      assert Unchecked(cols, checked) == u + [cols[n]];
    }
  }

  /**
   * Unchecked(cols, checked) holds exactly the columns that are not checked,
   * in their order: its length is their number, and the unchecked column at
   * position k sits at the number of unchecked columns before k.
   */
  lemma UncheckedPositions(cols: seq<XColumn>, checked: seq<XColumn>)
    ensures |Unchecked(cols, checked)| == UncheckedCount(cols, checked, |cols|)
    ensures forall k :: 0 <= k < |cols| && !Contains(checked, cols[k]) ==>
              UncheckedCount(cols, checked, k) < |Unchecked(cols, checked)|
              && Unchecked(cols, checked)[UncheckedCount(cols, checked, k)] == cols[k]
  {
    UncheckedLength(cols, checked);
    forall k | 0 <= k < |cols| && !Contains(checked, cols[k])
      ensures UncheckedCount(cols, checked, k) < |Unchecked(cols, checked)|
      ensures Unchecked(cols, checked)[UncheckedCount(cols, checked, k)] == cols[k]
    {
      UncheckedAt(cols, checked, k);
    }
  }

  // ---------------------------------------------------------------------------
  // Show columns
  // ---------------------------------------------------------------------------

  /**
   * What the show-column loop adds for one column c of the old list: the
   * shown checked columns when c is the insertion column, then c itself
   * unless it is checked.
   */
  function ShowStep(c: XColumn, insert: Option<XColumn>, checked: seq<XColumn>): seq<XColumn>
  {
    (if insert.Some? && SameColumn(c, insert.value) then Shown(checked) else [])
    + (if Contains(checked, c) then [] else [c])
  }

  /** The list the show-column loop builds from cols. */
  function ShowColumns(cols: seq<XColumn>, insert: Option<XColumn>, checked: seq<XColumn>): seq<XColumn>
  {
    if |cols| == 0 then []
    else ShowColumns(cols[..|cols| - 1], insert, checked) + ShowStep(cols[|cols| - 1], insert, checked)
  }

  /** Every column of r that is checked is shown. */
  predicate CheckedAreShown(r: seq<XColumn>, checked: seq<XColumn>)
  {
    forall k :: 0 <= k < |r| && Contains(checked, r[k]) ==> r[k].show
  }

  /** A checked column that occurs in the show-column result is always shown. */
  lemma {:induction false} ShowColumnsShowsChecked(cols: seq<XColumn>, insert: Option<XColumn>, checked: seq<XColumn>)
    ensures CheckedAreShown(ShowColumns(cols, insert, checked), checked)
    decreases |cols|
  {
    if |cols| > 0 {
      var init := ShowColumns(cols[..|cols| - 1], insert, checked);
      ShowColumnsShowsChecked(cols[..|cols| - 1], insert, checked);
      var c := cols[|cols| - 1];
      var front := if insert.Some? && SameColumn(c, insert.value) then Shown(checked) else [];
      var r := ShowColumns(cols, insert, checked);
      assert r == init + front + (if Contains(checked, c) then [] else [c]);
      forall k | 0 <= k < |r| ensures Contains(checked, r[k]) ==> r[k].show {
        if k < |init| {
          assert r[k] == init[k];
        } else if k < |init| + |front| {
          assert r[k] == front[k - |init|];
        } else {
          assert r[k] == c && !Contains(checked, c);
        }
      }
    }
  }

  /** Without an insertion column the checked columns are simply dropped. */
  lemma {:induction false} ShowColumnsNoInsertion(cols: seq<XColumn>, checked: seq<XColumn>)
    ensures ShowColumns(cols, None, checked) == Unchecked(cols, checked)
    decreases |cols|
  {
    if |cols| > 0 {
      ShowColumnsNoInsertion(cols[..|cols| - 1], checked);
    }
  }

  lemma {:induction false} ShowColumnsAppend(a: seq<XColumn>, b: seq<XColumn>, insert: Option<XColumn>, checked: seq<XColumn>)
    ensures ShowColumns(a + b, insert, checked) == ShowColumns(a, insert, checked) + ShowColumns(b, insert, checked)
    decreases |b|
  {
    if |b| == 0 {
      assert a + b == a;
    } else {
      var b', last := b[..|b| - 1], b[|b| - 1];
      assert (a + b)[..|a + b| - 1] == a + b';
      assert (a + b)[|a + b| - 1] == last;
      ShowColumnsAppend(a, b', insert, checked);
      var step := ShowStep(last, insert, checked);
      assert ShowColumns(a + b, insert, checked) == ShowColumns(a + b', insert, checked) + step;
      assert ShowColumns(b, insert, checked) == ShowColumns(b', insert, checked) + step;
    }
  }

  /** Where the insertion column does not occur, showing only drops the checked columns. */
  lemma {:induction false} ShowColumnsWithoutInsert(cols: seq<XColumn>, insert: XColumn, checked: seq<XColumn>)
    requires forall k :: 0 <= k < |cols| ==> !SameColumn(cols[k], insert)
    ensures ShowColumns(cols, Some(insert), checked) == Unchecked(cols, checked)
    decreases |cols|
  {
    if |cols| > 0 {
      ShowColumnsWithoutInsert(cols[..|cols| - 1], insert, checked);
    }
  }

  /** The show-column result splits around any position p of the old list. */
  lemma ShowColumnsSplit(cols: seq<XColumn>, p: nat, insert: Option<XColumn>, checked: seq<XColumn>)
    requires p < |cols|
    ensures ShowColumns(cols, insert, checked)
         == ShowColumns(cols[..p], insert, checked) + ShowColumns([cols[p]], insert, checked)
            + ShowColumns(cols[p + 1..], insert, checked)
  {
    assert cols == cols[..p] + [cols[p]] + cols[p + 1..];
    ShowColumnsAppend(cols[..p] + [cols[p]], cols[p + 1..], insert, checked);
    ShowColumnsAppend(cols[..p], [cols[p]], insert, checked);
  }

  /** At the insertion column itself, the shown checked columns come first. */
  lemma ShowColumnsAtInsert(c: XColumn, insert: XColumn, checked: seq<XColumn>)
    requires SameColumn(c, insert)
    ensures ShowColumns([c], Some(insert), checked) == Shown(checked) + Unchecked([c], checked)
  {
    assert [c][..0] == [];
  }

  /**
   * With the insertion column at position p and nowhere else, the result is
   * the unchecked columns before p, the shown checked columns, the insertion
   * column itself unless it is checked, then the unchecked columns after p:
   * every checked column sits immediately before the insertion column and
   * none stays at its old position.
   */
  lemma ShowColumnsPlacement(cols: seq<XColumn>, p: nat, insert: XColumn, checked: seq<XColumn>)
    requires p < |cols| && SameColumn(cols[p], insert)
    requires forall k :: 0 <= k < |cols| && k != p ==> !SameColumn(cols[k], insert)
    ensures ShowColumns(cols, Some(insert), checked)
         == Unchecked(cols[..p], checked) + (Shown(checked) + Unchecked([cols[p]], checked)) + Unchecked(cols[p + 1..], checked)
  {
    var before, after := cols[..p], cols[p + 1..];
    ShowColumnsSplit(cols, p, Some(insert), checked);
    forall k | 0 <= k < |before| ensures !SameColumn(before[k], insert) {
      assert before[k] == cols[k];
    }
    ShowColumnsWithoutInsert(before, insert, checked);
    forall k | 0 <= k < |after| ensures !SameColumn(after[k], insert) {
      assert after[k] == cols[p + 1 + k];
    }
    ShowColumnsWithoutInsert(after, insert, checked);
    ShowColumnsAtInsert(cols[p], insert, checked);
  }

  /** The checked columns, shown, are never themselves unchecked columns. */
  lemma UncheckedOfShown(checked: seq<XColumn>)
    ensures Unchecked(Shown(checked), checked) == []
  {
    var s := Shown(checked);
    forall k | 0 <= k < |s| ensures Contains(checked, s[k]) {
      assert SameColumn(checked[k], s[k]);
    }
    UncheckedOfContained(s, checked);
  }

  /** Columns that are all checked leave nothing unchecked. */
  lemma {:induction false} UncheckedOfContained(cols: seq<XColumn>, checked: seq<XColumn>)
    requires forall k :: 0 <= k < |cols| ==> Contains(checked, cols[k])
    ensures Unchecked(cols, checked) == []
    decreases |cols|
  {
    if |cols| > 0 {
      var init := cols[..|cols| - 1];
      assert forall k :: 0 <= k < |init| ==> init[k] == cols[k];
      UncheckedOfContained(init, checked);
      assert Contains(checked, cols[|cols| - 1]);
    }
  }

  /** Every element of Unchecked(cols, checked) comes from cols. */
  lemma {:induction false} UncheckedIsFilter(cols: seq<XColumn>, checked: seq<XColumn>, k: nat)
    requires k < |Unchecked(cols, checked)|
    ensures exists j :: 0 <= j < |cols| && cols[j] == Unchecked(cols, checked)[k]
    decreases |cols|
  {
    var init := cols[..|cols| - 1];
    var u := Unchecked(init, checked);
    if k < |u| {
      UncheckedIsFilter(init, checked, k);
      var j :| 0 <= j < |init| && init[j] == u[k];
      assert cols[j] == init[j];
    } else {
      assert Unchecked(cols, checked)[k] == cols[|cols| - 1];
    }
  }

  /** Showing never reorders the columns that were not checked. */
  lemma {:induction false} ShowColumnsKeepsUncheckedOrder(cols: seq<XColumn>, insert: Option<XColumn>, checked: seq<XColumn>)
    ensures Unchecked(ShowColumns(cols, insert, checked), checked) == Unchecked(cols, checked)
    decreases |cols|
  {
    if |cols| > 0 {
      var init, c := cols[..|cols| - 1], cols[|cols| - 1];
      ShowColumnsKeepsUncheckedOrder(init, insert, checked);
      var front := if insert.Some? && SameColumn(c, insert.value) then Shown(checked) else [];
      var back := if Contains(checked, c) then [] else [c];
      UncheckedAppend(ShowColumns(init, insert, checked), front + back, checked);
      UncheckedAppend(front, back, checked);
      UncheckedOfShown(checked);
      assert Unchecked(front, checked) == [] by {
        if front == [] {
        }
      }
      assert Unchecked(back, checked) == Unchecked([c], checked) || Unchecked(back, checked) == [] by {
        assert back == [] || back == [c];
      }
      assert [c][..0] == [];
    }
  }

  /** When the insertion column is in the list, every checked column appears, shown, in the result. */
  lemma ShowColumnsKeepsChecked(cols: seq<XColumn>, insert: XColumn, checked: seq<XColumn>)
    requires Contains(cols, insert)
    ensures forall k :: 0 <= k < |checked| ==> checked[k].(show := true) in ShowColumns(cols, Some(insert), checked)
  {
    var p :| 0 <= p < |cols| && SameColumn(cols[p], insert);
    ShowColumnsSplit(cols, p, Some(insert), checked);
    ShowColumnsAtInsert(cols[p], insert, checked);
    var before, after := ShowColumns(cols[..p], Some(insert), checked), ShowColumns(cols[p + 1..], Some(insert), checked);
    forall k | 0 <= k < |checked| ensures checked[k].(show := true) in ShowColumns(cols, Some(insert), checked) {
      InMiddle(before, Shown(checked), Unchecked([cols[p]], checked), after, k);
    }
  }

  /** An element of the middle part of a + (s + u) + b is in the whole. */
  lemma InMiddle<T>(a: seq<T>, s: seq<T>, u: seq<T>, b: seq<T>, k: nat)
    requires k < |s|
    ensures s[k] in a + (s + u) + b
  {
    assert (a + (s + u) + b)[|a| + k] == s[k];
  }

  /** The first column whose show flag is clear, when there is one. */
  function FirstHidden(cols: seq<XColumn>): (r: Option<nat>)
    ensures r.None? <==> forall k :: 0 <= k < |cols| ==> cols[k].show
    ensures r.Some? ==> r.value < |cols| && !cols[r.value].show
                        && forall k :: 0 <= k < r.value ==> cols[k].show
  {
    if |cols| == 0 then None
    else if !cols[0].show then Some(0)
    else
      match FirstHidden(cols[1..])
      case None => None
      case Some(i) => Some(i + 1)
  }

  /**
   * The insertion column of the show action: the right-clicked column, or
   * else the first hidden column, or else none.
   */
  function InsertionColumn(rightClick: Option<XColumn>, cols: seq<XColumn>): (r: Option<XColumn>)
    ensures rightClick.Some? ==> r == rightClick
    ensures rightClick.None? ==> (r.None? <==> forall k :: 0 <= k < |cols| ==> cols[k].show)
    ensures rightClick.None? && r.Some? ==> Contains(cols, r.value) && !r.value.show
  {
    if rightClick.Some? then rightClick
    else
      match FirstHidden(cols)
      case None => None
      case Some(i) => Some(cols[i])
  }

  /**
   * As written, showing columns when nothing was right-clicked and every
   * column is shown finds no insertion column, and the checked columns are
   * removed from the list instead of being inserted at its end.
   */
  lemma ShowColumnsAsWrittenDropsChecked()
    ensures var a := XColumn("a", "A", true, 100, false, None);
            var b := XColumn("b", "B", true, 100, false, None);
            InsertionColumn(None, [a, b]) == None
            && ShowColumns([a, b], InsertionColumn(None, [a, b]), [b]) == [a]
  {
    var a := XColumn("a", "A", true, 100, false, None);
    var b := XColumn("b", "B", true, 100, false, None);
    assert Contains([b], b);
    assert !Contains([b], a);
    assert [a, b][..1] == [a];
    assert [a, b][..1][..0] == [];
  }

  /**
   * Showing columns as intended: before the insertion column when there is
   * one, else at the end of the list.
   */
  function ShowColumnsIntended(cols: seq<XColumn>, rightClick: Option<XColumn>, checked: seq<XColumn>): (r: seq<XColumn>)
    ensures InsertionColumn(rightClick, cols).Some? ==> r == ShowColumns(cols, InsertionColumn(rightClick, cols), checked)
    ensures InsertionColumn(rightClick, cols).None? ==> r == Unchecked(cols, checked) + Shown(checked)
  {
    match InsertionColumn(rightClick, cols)
    case None => Unchecked(cols, checked) + Shown(checked)
    case Some(c) => ShowColumns(cols, Some(c), checked)
  }

  /**
   * Showing as intended never loses a checked column: when the right-clicked
   * column, if any, is in the list, every checked column is in the result,
   * shown, and the unchecked columns keep their order.
   */
  lemma ShowColumnsIntendedKeepsChecked(cols: seq<XColumn>, rightClick: Option<XColumn>, checked: seq<XColumn>)
    requires rightClick.Some? ==> Contains(cols, rightClick.value)
    ensures forall k :: 0 <= k < |checked| ==> checked[k].(show := true) in ShowColumnsIntended(cols, rightClick, checked)
    ensures Unchecked(ShowColumnsIntended(cols, rightClick, checked), checked) == Unchecked(cols, checked)
  {
    var r := ShowColumnsIntended(cols, rightClick, checked);
    match InsertionColumn(rightClick, cols)
    case None =>
      var u := Unchecked(cols, checked);
      forall k | 0 <= k < |checked| ensures checked[k].(show := true) in r {
        assert r[|u| + k] == Shown(checked)[k];
      }
      UncheckedAppend(u, Shown(checked), checked);
      UncheckedOfShown(checked);
      UncheckedIdempotent(cols, checked);
    case Some(c) =>
      ShowColumnsKeepsChecked(cols, c, checked);
      ShowColumnsKeepsUncheckedOrder(cols, Some(c), checked);
  }

  /** Filtering the unchecked columns twice is filtering them once. */
  lemma {:induction false} UncheckedIdempotent(cols: seq<XColumn>, checked: seq<XColumn>)
    ensures Unchecked(Unchecked(cols, checked), checked) == Unchecked(cols, checked)
    decreases |cols|
  {
    if |cols| > 0 {
      var init, c := cols[..|cols| - 1], cols[|cols| - 1];
      UncheckedIdempotent(init, checked);
      var back := if Contains(checked, c) then [] else [c];
      UncheckedAppend(Unchecked(init, checked), back, checked);
      assert [c][..0] == [];
    }
  }

  // ---------------------------------------------------------------------------
  // Add computed columns
  // ---------------------------------------------------------------------------

  /** Shown copies of the checked computed columns, each derived from the insertion column. */
  function Copies(checked: seq<XColumn>, insert: XColumn): (r: seq<XColumn>)
    ensures |r| == |checked|
    ensures forall k :: 0 <= k < |r| ==> r[k] == checked[k].(show := true, source := Some(insert.id))
  {
    seq(|checked|, k requires 0 <= k < |checked| => checked[k].(show := true, source := Some(insert.id)))
  }

  /**
   * The list the add-computed loop builds: every old column, in order, with
   * the copies placed before each column equal to the insertion column.
   */
  function AddComputed(cols: seq<XColumn>, insert: XColumn, checked: seq<XColumn>): (r: seq<XColumn>)
    ensures |r| >= |cols|
  {
    if |cols| == 0 then []
    else
      var c := cols[|cols| - 1];
      AddComputed(cols[..|cols| - 1], insert, checked)
      + (if SameColumn(c, insert) then Copies(checked, insert) else []) + [c]
  }

  lemma {:induction false} AddComputedAppend(a: seq<XColumn>, b: seq<XColumn>, insert: XColumn, checked: seq<XColumn>)
    ensures AddComputed(a + b, insert, checked) == AddComputed(a, insert, checked) + AddComputed(b, insert, checked)
    decreases |b|
  {
    if |b| == 0 {
      assert a + b == a;
    } else {
      var b' := b[..|b| - 1];
      assert (a + b)[..|a + b| - 1] == a + b';
      AddComputedAppend(a, b', insert, checked);
    }
  }

  /** Where the insertion column does not occur, nothing is added. */
  lemma {:induction false} AddComputedAbsent(cols: seq<XColumn>, insert: XColumn, checked: seq<XColumn>)
    requires forall k :: 0 <= k < |cols| ==> !SameColumn(cols[k], insert)
    ensures AddComputed(cols, insert, checked) == cols
    decreases |cols|
  {
    if |cols| > 0 {
      AddComputedAbsent(cols[..|cols| - 1], insert, checked);
      assert cols[..|cols| - 1] + [cols[|cols| - 1]] == cols;
    }
  }

  /**
   * With the insertion column at position p and nowhere else, the copies
   * sit directly before it and the original columns are all kept, in order.
   */
  lemma AddComputedPlacement(cols: seq<XColumn>, p: nat, insert: XColumn, checked: seq<XColumn>)
    requires p < |cols| && SameColumn(cols[p], insert)
    requires forall k :: 0 <= k < |cols| && k != p ==> !SameColumn(cols[k], insert)
    ensures AddComputed(cols, insert, checked) == cols[..p] + (Copies(checked, insert) + [cols[p]]) + cols[p + 1..]
  {
    var before, after := cols[..p], cols[p + 1..];
    AddComputedSplit(cols, p, insert, checked);
    forall k | 0 <= k < |before| ensures !SameColumn(before[k], insert) {
      assert before[k] == cols[k];
    }
    AddComputedAbsent(before, insert, checked);
    forall k | 0 <= k < |after| ensures !SameColumn(after[k], insert) {
      assert after[k] == cols[p + 1 + k];
    }
    AddComputedAbsent(after, insert, checked);
    AddComputedAtInsert(cols[p], insert, checked);
  }

  /** At the insertion column itself, the copies come first. */
  lemma AddComputedAtInsert(c: XColumn, insert: XColumn, checked: seq<XColumn>)
    requires SameColumn(c, insert)
    ensures AddComputed([c], insert, checked) == Copies(checked, insert) + [c]
  {
    assert [c][..0] == [];
  }

  /** The add-computed result splits around any position p of the old list. */
  lemma AddComputedSplit(cols: seq<XColumn>, p: nat, insert: XColumn, checked: seq<XColumn>)
    requires p < |cols|
    ensures AddComputed(cols, insert, checked)
         == AddComputed(cols[..p], insert, checked) + AddComputed([cols[p]], insert, checked)
            + AddComputed(cols[p + 1..], insert, checked)
  {
    assert cols == cols[..p] + [cols[p]] + cols[p + 1..];
    AddComputedAppend(cols[..p] + [cols[p]], cols[p + 1..], insert, checked);
    AddComputedAppend(cols[..p], [cols[p]], insert, checked);
  }

  // ---------------------------------------------------------------------------
  // Hide a column
  // ---------------------------------------------------------------------------

  /** The list the hide-column loop builds: the target column's show flag cleared. */
  function HideColumn(cols: seq<XColumn>, target: XColumn): (r: seq<XColumn>)
    ensures |r| == |cols|
    ensures forall k :: 0 <= k < |cols| ==>
              r[k] == if SameColumn(cols[k], target) then cols[k].(show := false) else cols[k]
  {
    if |cols| == 0 then []
    else
      var c := cols[|cols| - 1];
      HideColumn(cols[..|cols| - 1], target) + [if SameColumn(c, target) then c.(show := false) else c]
  }

  /** Hiding keeps every column in place and changes nothing but show flags. */
  lemma HideColumnKeepsOrder(cols: seq<XColumn>, target: XColumn)
    ensures forall k :: 0 <= k < |cols| ==> HideColumn(cols, target)[k].(show := cols[k].show) == cols[k]
    ensures forall k :: 0 <= k < |cols| ==> (HideColumn(cols, target)[k].show <==> cols[k].show && !SameColumn(cols[k], target))
  {
  }

  /** Hiding the same column twice is hiding it once. */
  lemma HideColumnIdempotent(cols: seq<XColumn>, target: XColumn)
    ensures HideColumn(HideColumn(cols, target), target) == HideColumn(cols, target)
  {
  }

  /**
   * In a table whose columns are all shown, after hiding a column the show
   * action without a right-clicked column inserts before that column's first
   * occurrence.
   */
  lemma HideThenShowInsertsThere(cols: seq<XColumn>, p: nat, target: XColumn)
    requires p < |cols| && SameColumn(cols[p], target)
    requires forall k :: 0 <= k < p ==> !SameColumn(cols[k], target)
    requires forall k :: 0 <= k < |cols| ==> cols[k].show
    ensures FirstHidden(HideColumn(cols, target)) == Some(p)
    ensures InsertionColumn(None, HideColumn(cols, target)) == Some(cols[p].(show := false))
  {
  }
}
