/**
 * The project hierarchy that the server returns for the report's base
 * project, and its flattening into the ordered project list that drives
 * the rest of the report (report_data.py, create_project_hierarchy and the
 * root entry built in gather_data_for_report).
 */
module ProjectHierarchy {

  /** One project of the nested hierarchy: its id, its name and its child
      projects in the order the server lists them. */
  datatype ProjectNode = ProjectNode(id: int, name: string, childProject: seq<ProjectNode>)

  /** The `parent` of a project-list entry: the sentinel "#" for the root,
      otherwise the id of the parent project. */
  datatype ParentRef = RootMarker | ParentId(id: int)

  /** One entry of the project list. The link string the report also stores
      is left out of the model. */
  datatype ProjectDescriptor = ProjectDescriptor(projectID: int, parent: ParentRef, projectName: string)

  // ---------------------------------------------------------------------
  // Names are ordered the way Python orders str values: lexicographically
  // by code point, a proper prefix first.

  predicate NameLe(a: string, b: string)
  {
    |a| == 0 || (|b| > 0 && (a[0] < b[0] || (a[0] == b[0] && NameLe(a[1..], b[1..]))))
  }

  lemma {:induction false} NameLeTotal(a: string, b: string)
    ensures NameLe(a, b) || NameLe(b, a)
  {
    if |a| > 0 && |b| > 0 && a[0] == b[0] {
      NameLeTotal(a[1..], b[1..]);
    }
  }

  lemma {:induction false} NameLeTrans(a: string, b: string, c: string)
    requires NameLe(a, b) && NameLe(b, c)
    ensures NameLe(a, c)
  {
    if |a| > 0 && |b| > 0 && |c| > 0 && a[0] == b[0] && b[0] == c[0] {
      NameLeTrans(a[1..], b[1..], c[1..]);
    }
  }

  predicate SortedByName(s: seq<ProjectNode>)
  {
    forall i, j :: 0 <= i < j < |s| ==> NameLe(s[i].name, s[j].name)
  }

  /** Inserts x before the first element whose name is not smaller, so that
      among equal names x, which came first in the input, stays first. */
  function Insert(x: ProjectNode, s: seq<ProjectNode>): (r: seq<ProjectNode>)
    ensures |r| == |s| + 1
  {
    if s == [] || NameLe(x.name, s[0].name) then [x] + s
    else [s[0]] + Insert(x, s[1..])
  }

  /** Python's stable sort of a child list by the key `name`. */
  function SortByName(s: seq<ProjectNode>): (r: seq<ProjectNode>)
    ensures |r| == |s|
  {
    if s == [] then [] else Insert(s[0], SortByName(s[1..]))
  }

  lemma {:induction false} InsertPermutes(x: ProjectNode, s: seq<ProjectNode>)
    ensures multiset(Insert(x, s)) == multiset(s) + multiset{x}
  {
    if s != [] && !NameLe(x.name, s[0].name) {
      InsertPermutes(x, s[1..]);
      assert s == [s[0]] + s[1..];
    }
  }

  /** SortByName only reorders: the sorted list holds the same children, as
      often as the input does. */
  lemma {:induction false} SortByNamePermutes(s: seq<ProjectNode>)
    ensures multiset(SortByName(s)) == multiset(s)
  {
    if s != [] {
      SortByNamePermutes(s[1..]);
      InsertPermutes(s[0], SortByName(s[1..]));
      assert s == [s[0]] + s[1..];
    }
  }

  lemma {:induction false} InsertSorted(x: ProjectNode, s: seq<ProjectNode>)
    requires SortedByName(s)
    ensures SortedByName(Insert(x, s))
  {
    if s == [] || NameLe(x.name, s[0].name) {
      forall j | 0 <= j < |s| ensures NameLe(x.name, s[j].name) {
        if j > 0 { NameLeTrans(x.name, s[0].name, s[j].name); }
      }
    } else {
      NameLeTotal(x.name, s[0].name);
      InsertSorted(x, s[1..]);
      var r := Insert(x, s[1..]);
      InsertPermutes(x, s[1..]);
      forall j | 0 <= j < |r| ensures NameLe(s[0].name, r[j].name) {
        assert r[j] in multiset(r);
        assert r[j] == x || r[j] in multiset(s[1..]);
        if r[j] != x {
          var k :| 0 <= k < |s[1..]| && s[1..][k] == r[j];
          assert s[k + 1] == r[j];
        }
      }
    }
  }

  /** SortByName yields the children in ascending name order. */
  lemma {:induction false} SortByNameSorted(s: seq<ProjectNode>)
    ensures SortedByName(SortByName(s))
  {
    if s != [] {
      SortByNameSorted(s[1..]);
      InsertSorted(s[0], SortByName(s[1..]));
    }
  }

  /** A list already in name order is left as it is. */
  lemma {:induction false} SortByNameOfSorted(s: seq<ProjectNode>)
    requires SortedByName(s)
    ensures SortByName(s) == s
  {
    if s != [] {
      assert SortedByName(s[1..]);
      SortByNameOfSorted(s[1..]);
      assert s == [s[0]] + s[1..];
    }
  }

  lemma {:induction false} NameLeRefl(a: string)
    ensures NameLe(a, a)
  {
    if |a| > 0 {
      NameLeRefl(a[1..]);
    }
  }

  /** The projects of s named n, in the order of s. */
  function WithName(s: seq<ProjectNode>, n: string): seq<ProjectNode>
  {
    if s == [] then [] else (if s[0].name == n then [s[0]] else []) + WithName(s[1..], n)
  }

  lemma {:induction false} InsertWithName(x: ProjectNode, s: seq<ProjectNode>, n: string)
    ensures WithName(Insert(x, s), n) == (if x.name == n then [x] else []) + WithName(s, n)
  {
    var hx := if x.name == n then [x] else [];
    if s == [] || NameLe(x.name, s[0].name) {
      var r := [x] + s;
      assert Insert(x, s) == r;
      assert r[0] == x && r[1..] == s;
      assert WithName(r, n) == hx + WithName(s, n);
    } else {
      NameLeRefl(x.name);
      var t := Insert(x, s[1..]);
      var r := [s[0]] + t;
      assert Insert(x, s) == r;
      assert r[0] == s[0] && r[1..] == t;
      var h0 := if s[0].name == n then [s[0]] else [];
      InsertWithName(x, s[1..], n);
      assert WithName(t, n) == hx + WithName(s[1..], n);
      assert WithName(r, n) == h0 + WithName(t, n);
      assert WithName(s, n) == h0 + WithName(s[1..], n);
      if x.name == n {
        assert h0 == [];
      } else {
        assert hx == [];
      }
    }
  }

  /** The sort is stable: projects with the same name keep their input
      order. */
  lemma {:induction false} SortByNameStable(s: seq<ProjectNode>, n: string)
    ensures WithName(SortByName(s), n) == WithName(s, n)
  {
    if s != [] {
      SortByNameStable(s[1..], n);
      InsertWithName(s[0], SortByName(s[1..]), n);
    }
  }

  // ---------------------------------------------------------------------
  // Size of a tree and the multiset of its projects.

  /** Number of projects in the tree rooted at p, p itself included. */
  function Size(p: ProjectNode): (n: nat)
    ensures n >= 1
  {
    1 + SizeSeq(p.childProject)
  }

  /** Number of projects in the trees rooted at the elements of cs. */
  function SizeSeq(cs: seq<ProjectNode>): nat
  {
    if cs == [] then 0 else SizeSeq(cs[..|cs| - 1]) + Size(cs[|cs| - 1])
  }

  lemma {:induction false} SizeSeqAppend(a: seq<ProjectNode>, b: seq<ProjectNode>)
    ensures SizeSeq(a + b) == SizeSeq(a) + SizeSeq(b)
    decreases |b|
  {
    if b == [] {
      assert a + b == a;
    } else {
      assert (a + b)[..|a + b| - 1] == a + b[..|b| - 1];
      SizeSeqAppend(a, b[..|b| - 1]);
    }
  }

  lemma SizeSeqSingleton(x: ProjectNode)
    ensures SizeSeq([x]) == Size(x)
  {
    assert [x][..0] == [];
  }

  lemma {:induction false} SizeSeqInsert(x: ProjectNode, s: seq<ProjectNode>)
    ensures SizeSeq(Insert(x, s)) == Size(x) + SizeSeq(s)
  {
    SizeSeqSingleton(x);
    if s == [] || NameLe(x.name, s[0].name) {
      SizeSeqAppend([x], s);
    } else {
      SizeSeqSingleton(s[0]);
      SizeSeqInsert(x, s[1..]);
      SizeSeqAppend([s[0]], Insert(x, s[1..]));
      SizeSeqAppend([s[0]], s[1..]);
      assert s == [s[0]] + s[1..];
    }
  }

  /** Sorting the children does not change how many projects hang below them. */
  lemma {:induction false} SizeSeqSort(s: seq<ProjectNode>)
    ensures SizeSeq(SortByName(s)) == SizeSeq(s)
  {
    if s != [] {
      SizeSeqSort(s[1..]);
      SizeSeqInsert(s[0], SortByName(s[1..]));
      SizeSeqSingleton(s[0]);
      SizeSeqAppend([s[0]], s[1..]);
      assert s == [s[0]] + s[1..];
    }
  }

  /** Each child tree is no larger than the forest it belongs to. */
  lemma SizeOfMember(cs: seq<ProjectNode>, i: nat)
    requires i < |cs|
    ensures Size(cs[i]) <= SizeSeq(cs)
  {
    assert cs == cs[..i] + [cs[i]] + cs[i + 1..];
    SizeSeqAppend(cs[..i] + [cs[i]], cs[i + 1..]);
    SizeSeqAppend(cs[..i], [cs[i]]);
    SizeSeqSingleton(cs[i]);
  }

  /** Every project below the roots cs, as (id, name) pairs, each counted once
      per position it holds in the tree. */
  function MembersSeq(cs: seq<ProjectNode>): multiset<(int, string)>
    decreases SizeSeq(cs)
  {
    if cs == [] then multiset{}
    else
      var c := cs[|cs| - 1];
      assert SizeSeq(cs) == SizeSeq(cs[..|cs| - 1]) + 1 + SizeSeq(c.childProject);
      MembersSeq(cs[..|cs| - 1]) + multiset{(c.id, c.name)} + MembersSeq(c.childProject)
  }

  lemma {:induction false} MembersSeqAppend(a: seq<ProjectNode>, b: seq<ProjectNode>)
    ensures MembersSeq(a + b) == MembersSeq(a) + MembersSeq(b)
    decreases |b|
  {
    if b == [] {
      assert a + b == a;
    } else {
      assert (a + b)[..|a + b| - 1] == a + b[..|b| - 1];
      MembersSeqAppend(a, b[..|b| - 1]);
    }
  }

  lemma {:induction false} MembersSeqInsert(x: ProjectNode, s: seq<ProjectNode>)
    ensures MembersSeq(Insert(x, s)) == MembersSeq([x]) + MembersSeq(s)
  {
    if s == [] || NameLe(x.name, s[0].name) {
      MembersSeqAppend([x], s);
    } else {
      var rest := Insert(x, s[1..]);
      calc {
        MembersSeq(Insert(x, s));
        MembersSeq([s[0]] + rest);
        { MembersSeqAppend([s[0]], rest); }
        MembersSeq([s[0]]) + MembersSeq(rest);
        { MembersSeqInsert(x, s[1..]); }
        MembersSeq([s[0]]) + (MembersSeq([x]) + MembersSeq(s[1..]));
        MembersSeq([x]) + (MembersSeq([s[0]]) + MembersSeq(s[1..]));
        { MembersSeqAppend([s[0]], s[1..]); assert s == [s[0]] + s[1..]; }
        MembersSeq([x]) + MembersSeq(s);
      }
    }
  }

  /** Sorting the children neither loses nor duplicates a project below them. */
  lemma {:induction false} MembersSeqSort(s: seq<ProjectNode>)
    ensures MembersSeq(SortByName(s)) == MembersSeq(s)
  {
    if s != [] {
      MembersSeqSort(s[1..]);
      MembersSortStep(s[0], s[1..], SortByName(s[1..]));
      assert s == [s[0]] + s[1..];
    }
  }

  lemma MembersSortStep(x: ProjectNode, rest: seq<ProjectNode>, sortedRest: seq<ProjectNode>)
    requires MembersSeq(sortedRest) == MembersSeq(rest)
    ensures MembersSeq(Insert(x, sortedRest)) == MembersSeq([x] + rest)
  {
    MembersSeqInsert(x, sortedRest);
    MembersSeqAppend([x], rest);
  }

  // ---------------------------------------------------------------------
  // The flattened project list.

  /** The entries create_project_hierarchy appends for the children cs of a
      project whose id is parentId: each child in turn, followed at once by
      the entries of its own descendants (pre-order). */
  function Entries(cs: seq<ProjectNode>, parentId: int): seq<ProjectDescriptor>
    decreases SizeSeq(cs), 1
  {
    if cs == [] then []
    else
      var c := cs[|cs| - 1];
      Entries(cs[..|cs| - 1], parentId) + [ProjectDescriptor(c.id, ParentId(parentId), c.name)] + Descendants(c)
  }

  /** The entries for every descendant of p, children visited in ascending
      name order at every level. */
  function Descendants(p: ProjectNode): seq<ProjectDescriptor>
    decreases Size(p), 0
  {
    SizeSeqSort(p.childProject);
    Entries(SortByName(p.childProject), p.id)
  }

  /** One more child handled: its entry and its descendants' entries follow
      those of the children before it. */
  lemma EntriesSnoc(prefix: seq<ProjectDescriptor>, cs: seq<ProjectNode>, i: nat, parentId: int)
    requires i < |cs|
    ensures prefix + Entries(cs[..i], parentId) + [ProjectDescriptor(cs[i].id, ParentId(parentId), cs[i].name)] + Descendants(cs[i])
         == prefix + Entries(cs[..i + 1], parentId)
  {
    assert cs[..i + 1][..i] == cs[..i];
  }

  /** The root entry of the project list, whose parent is the sentinel. */
  function RootEntry(root: ProjectNode): (d: ProjectDescriptor)
    ensures d.parent == RootMarker && d.projectID == root.id && d.projectName == root.name
  {
    ProjectDescriptor(root.id, RootMarker, root.name)
  }

  function Identities(list: seq<ProjectDescriptor>): seq<(int, string)>
  {
    seq(|list|, i requires 0 <= i < |list| => (list[i].projectID, list[i].projectName))
  }

  /** Every entry after the first names as its parent a project listed
      earlier, and only the first entry carries the root sentinel. */
  predicate WellLinked(list: seq<ProjectDescriptor>)
  {
    && |list| > 0
    && list[0].parent == RootMarker
    && forall k :: 0 < k < |list| ==> ParentListedBefore(list, k)
  }

  predicate ParentListedBefore(list: seq<ProjectDescriptor>, k: nat)
    requires k < |list|
  {
    list[k].parent.ParentId? && exists j :: 0 <= j < k && list[j].projectID == list[k].parent.id
  }

  /** create_project_hierarchy: appends to projectList, in place, one entry
      per descendant of project, in pre-order with siblings by ascending
      name, and returns the list. parentID is the id of project itself at
      every call site. */
  method CreateProjectHierarchy(project: ProjectNode, parentID: int, projectList: seq<ProjectDescriptor>)
    returns (r: seq<ProjectDescriptor>)
    ensures r == projectList + Entries(SortByName(project.childProject), parentID)
    decreases Size(project)
  {
    r := projectList;
    if |project.childProject| > 0 {
      var children := SortByName(project.childProject);
      SizeSeqSort(project.childProject);
      var i := 0;
      while i < |children|
        invariant 0 <= i <= |children|
        invariant r == projectList + Entries(children[..i], parentID)
      {
        var child := children[i];
        r := r + [ProjectDescriptor(child.id, ParentId(parentID), child.name)];
        SizeOfMember(children, i);
        r := CreateProjectHierarchy(child, child.id, r);
        EntriesSnoc(projectList, children, i, parentID);
        i := i + 1;
      }
      assert children[..i] == children;
    }
  }

  /** The start of gather_data_for_report: the root entry, followed by the
      flattened hierarchy when includeChildProjects is the string "true". */
  method BuildProjectList(projectHierarchy: ProjectNode, includeChildProjects: string)
    returns (projectList: seq<ProjectDescriptor>)
    ensures projectList == [RootEntry(projectHierarchy)]
                           + (if includeChildProjects == "true" then Descendants(projectHierarchy) else [])
  {
    projectList := [RootEntry(projectHierarchy)];
    if includeChildProjects == "true" {
      projectList := CreateProjectHierarchy(projectHierarchy, projectHierarchy.id, projectList);
    }
  }

  // ---------------------------------------------------------------------
  // What the flattening guarantees.

  /** One entry per descendant: as many entries as projects below p. */
  lemma {:induction false} EntriesLength(cs: seq<ProjectNode>, parentId: int)
    ensures |Entries(cs, parentId)| == SizeSeq(cs)
    decreases SizeSeq(cs), 1
  {
    if cs != [] {
      EntriesLength(cs[..|cs| - 1], parentId);
      DescendantsLength(cs[|cs| - 1]);
    }
  }

  lemma {:induction false} DescendantsLength(p: ProjectNode)
    ensures |Descendants(p)| == Size(p) - 1
    decreases Size(p), 0
  {
    SizeSeqSort(p.childProject);
    EntriesLength(SortByName(p.childProject), p.id);
  }

  lemma IdentitiesAppend(a: seq<ProjectDescriptor>, b: seq<ProjectDescriptor>)
    ensures Identities(a + b) == Identities(a) + Identities(b)
  {
  }

  /** The entries list exactly the projects below the children, each once
      per position it holds in the tree. */
  lemma {:induction false} EntriesMembers(cs: seq<ProjectNode>, parentId: int)
    ensures multiset(Identities(Entries(cs, parentId))) == MembersSeq(cs)
    decreases SizeSeq(cs), 1
  {
    if cs != [] {
      var c := cs[|cs| - 1];
      var init := Entries(cs[..|cs| - 1], parentId);
      var d := ProjectDescriptor(c.id, ParentId(parentId), c.name);
      EntriesMembers(cs[..|cs| - 1], parentId);
      DescendantsMembers(c);
      IdentitiesAppend(init + [d], Descendants(c));
      IdentitiesAppend(init, [d]);
    }
  }

  lemma {:induction false} DescendantsMembers(p: ProjectNode)
    ensures multiset(Identities(Descendants(p))) == MembersSeq(p.childProject)
    decreases Size(p), 0
  {
    SizeSeqSort(p.childProject);
    EntriesMembers(SortByName(p.childProject), p.id);
    MembersSeqSort(p.childProject);
  }

  /** Appending the entries below a project that is already listed keeps
      every parent listed before its children. */
  lemma {:induction false} EntriesKeepLinks(prefix: seq<ProjectDescriptor>, cs: seq<ProjectNode>, parentId: int)
    requires forall k :: 0 < k < |prefix| ==> ParentListedBefore(prefix, k)
    requires exists j :: 0 <= j < |prefix| && prefix[j].projectID == parentId
    ensures forall k :: 0 < k < |prefix + Entries(cs, parentId)| ==> ParentListedBefore(prefix + Entries(cs, parentId), k)
    decreases SizeSeq(cs), 1
  {
    if cs == [] {
      assert prefix + Entries(cs, parentId) == prefix;
    } else {
      var c := cs[|cs| - 1];
      var init := Entries(cs[..|cs| - 1], parentId);
      var d := ProjectDescriptor(c.id, ParentId(parentId), c.name);
      EntriesKeepLinks(prefix, cs[..|cs| - 1], parentId);
      var withInit := prefix + init;
      var withChild := withInit + [d];
      var j :| 0 <= j < |prefix| && prefix[j].projectID == parentId;
      forall k | 0 < k < |withChild| ensures ParentListedBefore(withChild, k) {
        if k < |withInit| {
          assert ParentListedBefore(withInit, k);
          var j' :| 0 <= j' < k && withInit[j'].projectID == withInit[k].parent.id;
          assert withChild[j'] == withInit[j'];
        } else {
          assert withChild[j].projectID == withChild[k].parent.id;
        }
      }
      assert withChild[|withInit|].projectID == c.id;
      DescendantsKeepLinks(withChild, c);
      var full := prefix + Entries(cs, parentId);
      assert full == withChild + Descendants(c);
      forall k | 0 < k < |full| ensures ParentListedBefore(full, k) {
        assert ParentListedBefore(withChild + Descendants(c), k);
      }
    }
  }

  lemma {:induction false} DescendantsKeepLinks(prefix: seq<ProjectDescriptor>, p: ProjectNode)
    requires forall k :: 0 < k < |prefix| ==> ParentListedBefore(prefix, k)
    requires exists j :: 0 <= j < |prefix| && prefix[j].projectID == p.id
    ensures forall k :: 0 < k < |prefix + Descendants(p)| ==> ParentListedBefore(prefix + Descendants(p), k)
    decreases Size(p), 0
  {
    SizeSeqSort(p.childProject);
    EntriesKeepLinks(prefix, SortByName(p.childProject), p.id);
  }

  /** The project list starts with the root entry, holds one entry per
      project of the hierarchy when children are included and only the root
      otherwise, and lists every parent before its children. */
  lemma ProjectListShape(projectHierarchy: ProjectNode, includeChildProjects: string)
    ensures var list := [RootEntry(projectHierarchy)]
                        + (if includeChildProjects == "true" then Descendants(projectHierarchy) else []);
            && list[0] == ProjectDescriptor(projectHierarchy.id, RootMarker, projectHierarchy.name)
            && |list| == (if includeChildProjects == "true" then Size(projectHierarchy) else 1)
            && WellLinked(list)
  {
    var root := [RootEntry(projectHierarchy)];
    assert root[0].projectID == projectHierarchy.id;
    if includeChildProjects == "true" {
      DescendantsLength(projectHierarchy);
      DescendantsKeepLinks(root, projectHierarchy);
    }
  }
}
