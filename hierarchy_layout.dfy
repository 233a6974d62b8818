/**
 * The "Project Hierarchy" block of the XLSX summary worksheets
 * (report_artifacts_xlsx.py, display_project_hierarchy). The worksheet is
 * modelled as the sequence of cells written to it, in writing order.
 */
module HierarchyLayout {

  import opened ProjectHierarchy

  /** A cell write: zero-based row and column, and the text written. */
  datatype Cell = Cell(row: int, column: int, text: string)

  /** The tree as display_project_hierarchy leaves it: the child list of
      every project it visits, which is every project of the tree, has been
      sorted by name in place. */
  function SortTree(p: ProjectNode): (r: ProjectNode)
    ensures r.id == p.id && r.name == p.name && Size(r) == Size(p)
    decreases Size(p), 0
  {
    SizeSeqSort(p.childProject);
    ProjectNode(p.id, p.name, SortTreeSeq(SortByName(p.childProject)))
  }

  function SortTreeSeq(cs: seq<ProjectNode>): (r: seq<ProjectNode>)
    ensures |r| == |cs| && SizeSeq(r) == SizeSeq(cs)
    ensures forall i {:trigger r[i]} :: 0 <= i < |cs| ==> r[i].id == cs[i].id && r[i].name == cs[i].name
    decreases SizeSeq(cs), 1
  {
    if cs == [] then []
    else
      var init := SortTreeSeq(cs[..|cs| - 1]);
      var last := SortTree(cs[|cs| - 1]);
      SizeSeqAppend(init, [last]);
      SizeSeqSingleton(last);
      init + [last]
  }

  /** The cells display_project_hierarchy(worksheet, p, row, column) writes:
      those of p's children, sorted by name, one row below and one column
      to the right of (row, column). */
  function Layout(p: ProjectNode, row: int, column: int): seq<Cell>
    decreases Size(p), 0
  {
    SizeSeqSort(p.childProject);
    LayoutSeq(SortByName(p.childProject), row + 1, column + 1)
  }

  /** The cells written for the sibling projects cs, the first of them on
      `row`, all of them in `column`, each followed by the block of its own
      descendants. */
  function LayoutSeq(cs: seq<ProjectNode>, row: int, column: int): seq<Cell>
    decreases SizeSeq(cs), 1
  {
    if cs == [] then []
    else
      var init := cs[..|cs| - 1];
      var c := cs[|cs| - 1];
      var r := row + SizeSeq(init);
      LayoutSeq(init, row, column) + [Cell(r, column, c.name)] + Layout(c, r, column)
  }

  /** One more sibling written: its cell, then its own block, follow the
      cells of the siblings before it. */
  lemma LayoutUnfoldLast(cs: seq<ProjectNode>, i: nat, row: int, column: int)
    requires i < |cs|
    ensures LayoutSeq(cs[..i + 1], row, column)
         == LayoutSeq(cs[..i], row, column) + [Cell(row + SizeSeq(cs[..i]), column, cs[i].name)] + Layout(cs[i], row + SizeSeq(cs[..i]), column)
  {
    var next := cs[..i + 1];
    assert next[..|next| - 1] == cs[..i];
  }

  lemma LayoutStep(worksheet: seq<Cell>, cs: seq<ProjectNode>, i: nat, row: int, column: int,
                   before: seq<Cell>, r: int, after: seq<Cell>)
    requires i < |cs|
    requires before == worksheet + LayoutSeq(cs[..i], row, column)
    requires r == row + SizeSeq(cs[..i])
    requires after == before + [Cell(r, column, cs[i].name)] + Layout(cs[i], r, column)
    ensures after == worksheet + LayoutSeq(cs[..i + 1], row, column)
  {
    LayoutUnfoldLast(cs, i, row, column);
  }

  lemma SiblingStep(cs: seq<ProjectNode>, i: nat)
    requires i < |cs|
    ensures SizeSeq(cs[..i + 1]) == SizeSeq(cs[..i]) + Size(cs[i])
    ensures SortTreeSeq(cs[..i + 1]) == SortTreeSeq(cs[..i]) + [SortTree(cs[i])]
  {
    assert cs[..i + 1][..i] == cs[..i];
  }

  /** One child written: the cells, the row reached and the sorted
      children so far all move on by that child. */
  lemma ChildStep(worksheet: seq<Cell>, cs: seq<ProjectNode>, i: nat, row: int, column: int,
                  before: seq<Cell>, r: int, after: seq<Cell>, rAfter: int,
                  sortedBefore: seq<ProjectNode>, sortedChild: ProjectNode)
    requires i < |cs|
    requires before == worksheet + LayoutSeq(cs[..i], row, column)
    requires r == row + SizeSeq(cs[..i])
    requires after == before + [Cell(r, column, cs[i].name)] + Layout(cs[i], r, column)
    requires rAfter == r + Size(cs[i])
    requires sortedBefore == SortTreeSeq(cs[..i])
    requires sortedChild == SortTree(cs[i])
    ensures after == worksheet + LayoutSeq(cs[..i + 1], row, column)
    ensures rAfter == row + SizeSeq(cs[..i + 1])
    ensures sortedBefore + [sortedChild] == SortTreeSeq(cs[..i + 1])
  {
    LayoutStep(worksheet, cs, i, row, column, before, r, after);
    SiblingStep(cs, i);
  }

  /** display_project_hierarchy: writes every descendant of parentProject
      below and to the right of (row, column), sorting each child list in
      place, and returns the row after the last one it wrote. */
  method DisplayProjectHierarchy(worksheet: seq<Cell>, parentProject: ProjectNode, row: int, column: int)
    returns (nextRow: int, written: seq<Cell>, sortedProject: ProjectNode)
    ensures nextRow == row + Size(parentProject)
    ensures written == worksheet + Layout(parentProject, row, column)
    ensures sortedProject == SortTree(parentProject)
    decreases Size(parentProject)
  {
    var col := column + 1;
    var r := row + 1;
    written := worksheet;
    var sortedChildren: seq<ProjectNode> := [];
    if |parentProject.childProject| > 0 {
      var childProjects := SortByName(parentProject.childProject);
      SizeSeqSort(parentProject.childProject);
      var i := 0;
      while i < |childProjects|
        invariant 0 <= i <= |childProjects|
        invariant r == row + 1 + SizeSeq(childProjects[..i])
        invariant written == worksheet + LayoutSeq(childProjects[..i], row + 1, col)
        invariant sortedChildren == SortTreeSeq(childProjects[..i])
      {
        var child := childProjects[i];
        ghost var before, rowOfChild, sortedBefore := written, r, sortedChildren;
        written := written + [Cell(r, col, child.name)];
        SizeOfMember(childProjects, i);
        var sortedChild;
        r, written, sortedChild := DisplayProjectHierarchy(written, child, r, col);
        sortedChildren := sortedChildren + [sortedChild];
        ChildStep(worksheet, childProjects, i, row + 1, col, before, rowOfChild, written, r,
                  sortedBefore, sortedChild);
        i := i + 1;
      }
      assert childProjects[..i] == childProjects;
      assert written == worksheet + Layout(parentProject, row, column);
      assert sortedChildren == SortTreeSeq(SortByName(parentProject.childProject));
    } else {
      assert SortByName(parentProject.childProject) == [];
    }
    sortedProject := ProjectNode(parentProject.id, parentProject.name, sortedChildren);
    nextRow := r;
  }

  // ---------------------------------------------------------------------
  // What the layout guarantees.

  /** The cells for siblings cs take consecutive rows from `row` on, one per
      project below cs, in the order and with the names of the project list
      entries for the same projects; none lies left of `column`. */
  lemma {:induction false} LayoutSeqMatchesEntries(cs: seq<ProjectNode>, row: int, column: int, parentId: int)
    ensures |LayoutSeq(cs, row, column)| == |Entries(cs, parentId)| == SizeSeq(cs)
    ensures forall k :: 0 <= k < |LayoutSeq(cs, row, column)| ==>
              && LayoutSeq(cs, row, column)[k].row == row + k
              && LayoutSeq(cs, row, column)[k].text == Entries(cs, parentId)[k].projectName
              && LayoutSeq(cs, row, column)[k].column >= column
    decreases SizeSeq(cs), 1
  {
    if cs != [] {
      var init := cs[..|cs| - 1];
      var c := cs[|cs| - 1];
      var r := row + SizeSeq(init);
      var a := LayoutSeq(init, row, column);
      var b := Layout(c, r, column);
      var ea := Entries(init, parentId);
      var eb := Descendants(c);
      LayoutSeqMatchesEntries(init, row, column, parentId);
      LayoutMatchesDescendants(c, r, column);
      DescendantsLength(c);
      var cells := a + [Cell(r, column, c.name)] + b;
      var entries := ea + [ProjectDescriptor(c.id, ParentId(parentId), c.name)] + eb;
      assert LayoutSeq(cs, row, column) == cells;
      assert Entries(cs, parentId) == entries;
      forall k | 0 <= k < |cells|
        ensures cells[k].row == row + k && cells[k].text == entries[k].projectName && cells[k].column >= column
      {
        if k < |a| {
        } else if k == |a| {
        } else {
          assert cells[k] == b[k - |a| - 1] && entries[k] == eb[k - |a| - 1];
        }
      }
    }
  }

  /** display_project_hierarchy(_, p, row, column) writes the descendants
      of p on rows row + 1, row + 2, ... in order, one row each, with the
      names the project list gives them in the same order, all of them
      right of `column`. */
  lemma {:induction false} LayoutMatchesDescendants(p: ProjectNode, row: int, column: int)
    ensures |Layout(p, row, column)| == |Descendants(p)| == Size(p) - 1
    ensures forall k :: 0 <= k < |Layout(p, row, column)| ==>
              && Layout(p, row, column)[k].row == row + 1 + k
              && Layout(p, row, column)[k].text == Descendants(p)[k].projectName
              && Layout(p, row, column)[k].column > column
    decreases Size(p), 0
  {
    SizeSeqSort(p.childProject);
    LayoutSeqMatchesEntries(SortByName(p.childProject), row + 1, column + 1, p.id);
  }

  /** The texts of the cells written in `column`, in writing order. */
  function AtColumn(cells: seq<Cell>, column: int): seq<string>
  {
    if cells == [] then []
    else AtColumn(cells[..|cells| - 1], column)
         + (if cells[|cells| - 1].column == column then [cells[|cells| - 1].text] else [])
  }

  lemma {:induction false} AtColumnAppend(a: seq<Cell>, b: seq<Cell>, column: int)
    ensures AtColumn(a + b, column) == AtColumn(a, column) + AtColumn(b, column)
    decreases |b|
  {
    if b == [] {
      assert a + b == a;
    } else {
      assert (a + b)[..|a + b| - 1] == a + b[..|b| - 1];
      AtColumnAppend(a, b[..|b| - 1], column);
    }
  }

  lemma {:induction false} AtColumnNone(cells: seq<Cell>, column: int)
    requires forall k :: 0 <= k < |cells| ==> cells[k].column > column
    ensures AtColumn(cells, column) == []
    decreases |cells|
  {
    if cells != [] {
      AtColumnNone(cells[..|cells| - 1], column);
    }
  }

  function Names(cs: seq<ProjectNode>): seq<string>
  {
    seq(|cs|, i requires 0 <= i < |cs| => cs[i].name)
  }

  lemma {:induction false} LayoutSeqColumn(cs: seq<ProjectNode>, row: int, column: int)
    ensures AtColumn(LayoutSeq(cs, row, column), column) == Names(cs)
    decreases |cs|
  {
    if cs != [] {
      var init := cs[..|cs| - 1];
      var c := cs[|cs| - 1];
      var r := row + SizeSeq(init);
      var a := LayoutSeq(init, row, column);
      var b := Layout(c, r, column);
      LayoutSeqColumn(init, row, column);
      LayoutMatchesDescendants(c, r, column);
      AtColumnNone(b, column);
      AtColumnAppend(a + [Cell(r, column, c.name)], b, column);
      AtColumnAppend(a, [Cell(r, column, c.name)], column);
      assert AtColumn([Cell(r, column, c.name)], column) == [c.name] by {
        assert [Cell(r, column, c.name)][..0] == [];
      }
      assert Names(cs) == Names(init) + [c.name];
    }
  }

  /** The cells one column right of `column` are exactly p's direct children,
      in ascending name order; every deeper project lies further right. */
  lemma DirectChildrenColumn(p: ProjectNode, row: int, column: int)
    ensures AtColumn(Layout(p, row, column), column + 1) == Names(SortByName(p.childProject))
    ensures SortedByName(SortByName(p.childProject))
  {
    SizeSeqSort(p.childProject);
    LayoutSeqColumn(SortByName(p.childProject), row + 1, column + 1);
    SortByNameSorted(p.childProject);
  }

  lemma {:induction false} LayoutSeqFirst(cs: seq<ProjectNode>, row: int, column: int)
    requires cs != []
    ensures LayoutSeq(cs, row, column)[0] == Cell(row, column, cs[0].name)
    decreases |cs|
  {
    if |cs| > 1 {
      LayoutSeqFirst(cs[..|cs| - 1], row, column);
    }
  }

  /** The report writes the base project at C4 (row 3, column 2) and calls
      display_project_hierarchy(_, hierarchy, 3, 2): the first child by name
      lands at row 4, column 3. */
  lemma FirstChildPlacement(projectHierarchy: ProjectNode)
    requires projectHierarchy.childProject != []
    ensures |Layout(projectHierarchy, 3, 2)| > 0
    ensures Layout(projectHierarchy, 3, 2)[0] == Cell(4, 3, SortByName(projectHierarchy.childProject)[0].name)
  {
    LayoutMatchesDescendants(projectHierarchy, 3, 2);
    SizeOfMember(projectHierarchy.childProject, 0);
    SizeSeqSort(projectHierarchy.childProject);
    LayoutSeqFirst(SortByName(projectHierarchy.childProject), 4, 3);
  }

  // ---------------------------------------------------------------------
  // The in-place sort: all three summary worksheets show the same block.

  lemma {:induction false} SortTreeSeqIdempotent(cs: seq<ProjectNode>)
    ensures SortTreeSeq(SortTreeSeq(cs)) == SortTreeSeq(cs)
    decreases SizeSeq(cs), 1
  {
    if cs != [] {
      var init := SortTreeSeq(cs[..|cs| - 1]);
      var last := SortTree(cs[|cs| - 1]);
      var s := init + [last];
      assert s[..|s| - 1] == init;
      SortTreeSeqIdempotent(cs[..|cs| - 1]);
      SortTreeIdempotent(cs[|cs| - 1]);
    }
  }

  lemma SortTreeSeqSorted(cs: seq<ProjectNode>)
    requires SortedByName(cs)
    ensures SortedByName(SortTreeSeq(cs))
  {
  }

  /** Every child list of the tree, at every depth, is in name order. */
  predicate TreeSorted(p: ProjectNode)
    decreases p
  {
    && SortedByName(p.childProject)
    && forall i :: 0 <= i < |p.childProject| ==> TreeSorted(p.childProject[i])
  }

  /** The tree display_project_hierarchy leaves behind has every child list
      sorted, at every depth. */
  lemma {:induction false} SortTreeAllSorted(p: ProjectNode)
    ensures TreeSorted(SortTree(p))
    decreases Size(p), 0
  {
    SizeSeqSort(p.childProject);
    var s := SortByName(p.childProject);
    SortByNameSorted(p.childProject);
    SortTreeSeqSorted(s);
    SortTreeSeqAllSorted(s);
  }

  lemma {:induction false} SortTreeSeqAllSorted(cs: seq<ProjectNode>)
    ensures forall i :: 0 <= i < |cs| ==> TreeSorted(SortTreeSeq(cs)[i])
    decreases SizeSeq(cs), 1
  {
    if cs != [] {
      var init := cs[..|cs| - 1];
      var last := cs[|cs| - 1];
      SizeSeqAppend(init, [last]);
      SizeSeqSingleton(last);
      assert cs == init + [last];
      SortTreeSeqAllSorted(init);
      SortTreeAllSorted(last);
    }
  }

  /** Sorting an already sorted tree changes nothing. */
  lemma {:induction false} SortTreeIdempotent(p: ProjectNode)
    ensures SortTree(SortTree(p)) == SortTree(p)
    decreases Size(p), 0
  {
    SizeSeqSort(p.childProject);
    var s := SortByName(p.childProject);
    SortByNameSorted(p.childProject);
    SortTreeSeqSorted(s);
    SortByNameOfSorted(SortTreeSeq(s));
    SortTreeSeqIdempotent(s);
  }

  lemma {:induction false} LayoutSeqOfSorted(cs: seq<ProjectNode>, row: int, column: int)
    ensures LayoutSeq(SortTreeSeq(cs), row, column) == LayoutSeq(cs, row, column)
    decreases SizeSeq(cs), 1
  {
    if cs != [] {
      var c := cs[|cs| - 1];
      var init := SortTreeSeq(cs[..|cs| - 1]);
      var last := SortTree(c);
      var s := init + [last];
      assert s == SortTreeSeq(cs);
      assert s[..|s| - 1] == init;
      var r := row + SizeSeq(init);
      assert r == row + SizeSeq(cs[..|cs| - 1]);
      assert LayoutSeq(s, row, column) == LayoutSeq(init, row, column) + [Cell(r, column, c.name)] + Layout(last, r, column);
      LayoutSeqOfSorted(cs[..|cs| - 1], row, column);
      LayoutOfSorted(c, r, column);
    }
  }

  /** The tree the first worksheet leaves sorted is laid out exactly as the
      unsorted one: the second and third worksheets get the same cells. */
  lemma {:induction false} LayoutOfSorted(p: ProjectNode, row: int, column: int)
    ensures Layout(SortTree(p), row, column) == Layout(p, row, column)
    decreases Size(p), 0
  {
    SizeSeqSort(p.childProject);
    var s := SortByName(p.childProject);
    SortByNameSorted(p.childProject);
    SortTreeSeqSorted(s);
    SortByNameOfSorted(SortTreeSeq(s));
    LayoutSeqOfSorted(s, row + 1, column + 1);
  }
}
