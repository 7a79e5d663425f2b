/** The contract check over a layout, and exactly when a placed layout passes it. */
module DirectoryContract {
  import opened Wrappers
  import opened Sequences
  import opened Sorting
  import opened Layout

  // ---------- what the check looks at ----------

  ghost predicate IsDirect(layout: seq<Assignment>, d: Dir) {
    exists a :: a in layout && a.parent == d
  }

  ghost predicate HasRole(layout: seq<Assignment>, d: Dir, role: Role) {
    exists a :: a in layout && a.parent == d && a.candidate.role == role
  }

  // The root, and every directory on the way to a file.
  ghost predicate InTree(layout: seq<Assignment>, d: Dir) {
    d == [] || exists a :: a in layout && d <= a.parent
  }

  // A directory of the tree with another directory of the tree directly below it.
  ghost predicate HasChild(layout: seq<Assignment>, d: Dir) {
    exists c :: InTree(layout, c) && c != [] && Parent(c) == d
  }

  ghost predicate NonLeavesHaveFiles(layout: seq<Assignment>) {
    forall d :: InTree(layout, d) && HasChild(layout, d) ==> IsDirect(layout, d)
  }

  ghost predicate ResumeOnlyAt(layout: seq<Assignment>, d: Dir) {
    HasRole(layout, d, Resume) && !HasRole(layout, d, Ordinary)
  }

  ghost predicate MixedAt(layout: seq<Assignment>, d: Dir) {
    HasRole(layout, d, Resume) && HasRole(layout, d, Ordinary)
  }

  // ---------- the check ----------

  ghost predicate RolesRecorded(layout: seq<Assignment>, direct: map<Dir, set<Role>>) {
    && (forall d :: d in direct <==> IsDirect(layout, d))
    && (forall d, role :: d in direct ==> (role in direct[d] <==> HasRole(layout, d, role)))
  }

  ghost predicate TreeRecorded(layout: seq<Assignment>, all: set<Dir>) {
    forall d :: d in all <==> InTree(layout, d)
  }

  lemma RolesNext(layout: seq<Assignment>, direct: map<Dir, set<Role>>, a: Assignment)
    requires RolesRecorded(layout, direct)
    ensures var known := if a.parent in direct then direct[a.parent] else {};
            RolesRecorded(layout + [a], direct[a.parent := known + {a.candidate.role}])
  {
    assert forall b :: b in layout + [a] <==> b in layout || b == a;
  }

  method AddAncestors(all: set<Dir>, d: Dir) returns (grown: set<Dir>)
    ensures forall x :: x in grown <==> x in all || (x != [] && x <= d)
  {
    grown := all;
    var parent := d;
    while parent != []
      invariant parent <= d
      invariant forall x :: x in grown <==> x in all || (x != [] && x <= d && |x| > |parent|)
      decreases |parent|
    {
      assert forall x :: x <= d && |x| == |parent| ==> x == parent;
      grown := grown + {parent};
      parent := Parent(parent);
    }
  }

  method Survey(layout: seq<Assignment>) returns (direct: map<Dir, set<Role>>, all: set<Dir>)
    ensures RolesRecorded(layout, direct) && TreeRecorded(layout, all)
  {
    direct, all := map[], {[]};
    for i := 0 to |layout|
      invariant RolesRecorded(layout[..i], direct) && TreeRecorded(layout[..i], all)
    {
      var a := layout[i];
      assert layout[..i + 1] == layout[..i] + [a];
      RolesNext(layout[..i], direct, a);
      direct := direct[a.parent := (if a.parent in direct then direct[a.parent] else {}) + {a.candidate.role}];
      all := AddAncestors(all, a.parent);
    }
    assert layout[..|layout|] == layout;
  }

  // `n` counts the directories satisfying `p`.
  ghost predicate Counts(n: nat, p: Dir -> bool) {
    exists dirs: set<Dir> :: (forall d :: d in dirs <==> p(d)) && |dirs| == n
  }

  lemma KindsFound(layout: seq<Assignment>, direct: map<Dir, set<Role>>, dirs: set<Dir>, roles: set<Role>)
    requires RolesRecorded(layout, direct) && dirs == set d | d in direct && direct[d] == roles
    ensures roles == {Resume} ==> forall d :: d in dirs <==> ResumeOnlyAt(layout, d)
    ensures roles == {Resume, Ordinary} ==> forall d :: d in dirs <==> MixedAt(layout, d)
  {
    forall d | d in direct
      ensures direct[d] == {Resume} <==> Resume in direct[d] && Ordinary !in direct[d]
      ensures direct[d] == {Resume, Ordinary} <==> Resume in direct[d] && Ordinary in direct[d]
    {
      assert direct[d] <= {Resume, Ordinary};
    }
    forall d, role | HasRole(layout, d, role)
      ensures d in direct
    {}
  }

  method MaxDepth(layout: seq<Assignment>) returns (depth: nat)
    requires layout != []
    ensures forall a :: a in layout ==> |a.parent| <= depth
    ensures exists a :: a in layout && |a.parent| == depth
  {
    depth := |layout[0].parent|;
    for i := 1 to |layout|
      invariant forall k :: 0 <= k < i ==> |layout[k].parent| <= depth
      invariant exists a :: a in layout && |a.parent| == depth
    {
      if |layout[i].parent| > depth {
        depth := |layout[i].parent|;
        assert layout[i] in layout;
      }
    }
  }

  ghost predicate BothKinds(layout: seq<Assignment>) {
    (exists d :: ResumeOnlyAt(layout, d)) && (exists d :: MixedAt(layout, d))
  }

  ghost predicate Describes(layout: seq<Assignment>, c: Contract) {
    && Counts(c.resumeOnly, d => ResumeOnlyAt(layout, d))
    && Counts(c.mixed, d => MixedAt(layout, d))
    && (forall a :: a in layout ==> |a.parent| <= c.maxDepth)
    && (exists a :: a in layout && |a.parent| == c.maxDepth)
  }

  method CountKinds(layout: seq<Assignment>, direct: map<Dir, set<Role>>) returns (r: Result<Contract, ScopeInvalid>)
    requires RolesRecorded(layout, direct)
    ensures r.Failure? ==> r.error == DirectoryKindMissing
    ensures r.Success? <==> BothKinds(layout)
    ensures r.Success? ==> Describes(layout, r.value)
  {
    var resumeOnly := set d | d in direct && direct[d] == {Resume};
    var mixed := set d | d in direct && direct[d] == {Resume, Ordinary};
    KindsFound(layout, direct, resumeOnly, {Resume});
    KindsFound(layout, direct, mixed, {Resume, Ordinary});
    if |resumeOnly| == 0 || |mixed| == 0 {
      assert resumeOnly == {} || mixed == {};
      return Failure(DirectoryKindMissing);
    }
    var d :| d in mixed;
    var depth := MaxDepth(layout);
    return Success(Contract(depth, |resumeOnly|, |mixed|));
  }

  /** Accepts exactly when every non-leaf directory holds files and both kinds of
      directory occur. */
  method CheckContract(layout: seq<Assignment>) returns (r: Result<Contract, ScopeInvalid>)
    ensures r == Failure(NonLeafWithoutFiles) <==> !NonLeavesHaveFiles(layout)
    ensures r.Success? <==> NonLeavesHaveFiles(layout) && BothKinds(layout)
    ensures r.Success? ==> Describes(layout, r.value)
  {
    var direct, all := Survey(layout);
    var nonLeaf := set d | d in all && exists c :: c in all - {d} && c != [] && Parent(c) == d;
    NonLeafMeaning(layout, direct, all, nonLeaf);
    if exists d :: d in nonLeaf && d !in direct { return Failure(NonLeafWithoutFiles); }
    r := CountKinds(layout, direct);
  }

  lemma NonLeafMeaning(layout: seq<Assignment>, direct: map<Dir, set<Role>>, all: set<Dir>, nonLeaf: set<Dir>)
    requires RolesRecorded(layout, direct) && TreeRecorded(layout, all)
    requires nonLeaf == set d | d in all && exists c :: c in all - {d} && c != [] && Parent(c) == d
    ensures (forall d :: d in nonLeaf ==> d in direct) <==> NonLeavesHaveFiles(layout)
  {
    forall d
      ensures d in nonLeaf <==> InTree(layout, d) && HasChild(layout, d)
    {
      if InTree(layout, d) && HasChild(layout, d) {
        var c :| InTree(layout, c) && c != [] && Parent(c) == d;
        assert |c| == |d| + 1;
        assert c in all - {d};
      }
    }
  }

  // ---------- placed layouts ----------

  lemma PlacedInTurn(role: Role, depth: nat, c: nat)
    requires 1 <= depth <= 3
    ensures Placed(role, 4 * c + depth) == PoolDir(role, depth, c % PoolSize(role, depth))
  {
    assert (4 * c + depth) / 4 == c && (4 * c + depth) % 4 == depth;
  }

  lemma ModBounds(a: nat, b: nat)
    requires b >= 1
    ensures a % b < b && a % b <= a && (a < b ==> a % b == a)
  {
    assert a == b * (a / b) + a % b;
    assert a / b >= 0;
  }

  /** The parent of a placement is the placement of an earlier candidate of the same role. */
  lemma ParentIsPlacedEarlier(role: Role, i: nat) returns (j: nat)
    requires Placed(role, i) != []
    ensures j < i && Placed(role, j) == Parent(Placed(role, i))
  {
    var depth, turn := i % 4, i / 4;
    if depth == 1 {
      j := 0;
    } else {
      var c := turn % PoolSize(role, depth);
      ModBounds(turn, PoolSize(role, depth));
      ParentIndex(role, depth, c);
      ModBounds(c / 2, PoolSize(role, depth - 1));
      PlacedInTurn(role, depth - 1, c / 2);
      j := 4 * (c / 2) + (depth - 1);
    }
  }

  lemma {:induction false} AncestorIsPlaced(role: Role, i: nat, d: Dir) returns (j: nat)
    requires d <= Placed(role, i)
    ensures j <= i && Placed(role, j) == d
    decreases i
  {
    if d == Placed(role, i) {
      j := i;
    } else {
      var up := ParentIsPlacedEarlier(role, i);
      assert d <= Parent(Placed(role, i));
      j := AncestorIsPlaced(role, up, d);
    }
  }

  // The layout holds `n` candidates of the role, placed in turn.
  ghost predicate Holds(layout: seq<Assignment>, role: Role, n: nat) {
    && (forall a :: a in layout && a.candidate.role == role ==> exists i: nat :: i < n && a.parent == Placed(role, i))
    && (forall i: nat :: i < n ==> HasRole(layout, Placed(role, i), role))
  }

  ghost predicate IsPlaced(layout: seq<Assignment>, resumes: nat, ordinary: nat) {
    Holds(layout, Resume, resumes) && Holds(layout, Ordinary, ordinary)
  }

  lemma TreeIsDirect(layout: seq<Assignment>, resumes: nat, ordinary: nat, d: Dir)
    requires IsPlaced(layout, resumes, ordinary) && d != [] && InTree(layout, d)
    ensures IsDirect(layout, d) && IsDirect(layout, Parent(d))
  {
    var a :| a in layout && d <= a.parent;
    var role := a.candidate.role;
    var i: nat :| i < (if role == Resume then resumes else ordinary) && a.parent == Placed(role, i);
    var j := AncestorIsPlaced(role, i, d);
    assert HasRole(layout, Placed(role, j), role);
    var k := ParentIsPlacedEarlier(role, j);
    assert HasRole(layout, Placed(role, k), role);
  }

  /** The non-leaf check never fires on a placed layout. */
  lemma PlacedNonLeavesHaveFiles(layout: seq<Assignment>, resumes: nat, ordinary: nat)
    requires IsPlaced(layout, resumes, ordinary)
    ensures NonLeavesHaveFiles(layout)
  {
    forall d | InTree(layout, d) && HasChild(layout, d)
      ensures IsDirect(layout, d)
    {
      var c :| InTree(layout, c) && c != [] && Parent(c) == d;
      TreeIsDirect(layout, resumes, ordinary, c);
    }
  }

  lemma FirstPlacements()
    ensures Placed(Resume, 0) == [] && Placed(Ordinary, 0) == []
    ensures Placed(Resume, 1) == [1]
    ensures forall i: nat :: Placed(Ordinary, i) != [1]
  {
    forall i: nat
      ensures Placed(Ordinary, i) != [1]
    {
      if i % 4 == 1 { assert PerSector(1) == 1; }
    }
  }

  lemma KindsWhenEnough(layout: seq<Assignment>, resumes: nat, ordinary: nat)
    requires IsPlaced(layout, resumes, ordinary) && resumes >= 2 && ordinary >= 1
    ensures ResumeOnlyAt(layout, [1]) && MixedAt(layout, [])
  {
    FirstPlacements();
    assert HasRole(layout, Placed(Resume, 0), Resume) && HasRole(layout, Placed(Resume, 1), Resume);
    assert HasRole(layout, Placed(Ordinary, 0), Ordinary);
  }

  lemma HeldAt(layout: seq<Assignment>, role: Role, n: nat, d: Dir)
    requires Holds(layout, role, n) && HasRole(layout, d, role)
    ensures n >= 1 && (n == 1 ==> d == Placed(role, 0))
  {
    var a :| a in layout && a.parent == d && a.candidate.role == role;
    var i: nat :| i < n && a.parent == Placed(role, i);
  }

  lemma KindsNeedEnough(layout: seq<Assignment>, resumes: nat, ordinary: nat, d: Dir, e: Dir)
    requires IsPlaced(layout, resumes, ordinary) && ResumeOnlyAt(layout, d) && MixedAt(layout, e)
    ensures resumes >= 2 && ordinary >= 1
  {
    HeldAt(layout, Ordinary, ordinary, e);
    HeldAt(layout, Resume, resumes, d);
    FirstPlacements();
    assert HasRole(layout, Placed(Ordinary, 0), Ordinary);
  }

  lemma InRole(candidates: seq<Candidate>, nameOf: string -> string, a: Assignment)
    requires a in Placements(candidates, nameOf)
    ensures exists i: nat :: i < |OfRole(candidates, a.candidate.role)| && a.parent == Placed(a.candidate.role, i)
  {
    var role := if a in RolePlacements(Resume, OfRole(candidates, Resume), nameOf) then Resume else Ordinary;
    var items := OfRole(candidates, role);
    var mine := RolePlacements(role, items, nameOf);
    var i :| 0 <= i < |mine| && mine[i] == a;
    assert items[i] in items;
  }

  lemma RoleIsPlaced(candidates: seq<Candidate>, nameOf: string -> string, role: Role, i: nat)
    requires i < |OfRole(candidates, role)|
    ensures HasRole(Placements(candidates, nameOf), Placed(role, i), role)
  {
    var items := OfRole(candidates, role);
    var mine := RolePlacements(role, items, nameOf);
    assert items[i] in items;
    assert mine[i] in mine && mine[i] in Placements(candidates, nameOf);
  }

  lemma RoleIsHeld(candidates: seq<Candidate>, nameOf: string -> string, role: Role)
    ensures Holds(Sort(Placements(candidates, nameOf), PathLe), role, |OfRole(candidates, role)|)
  {
    var placements := Placements(candidates, nameOf);
    SortPermutes(placements, PathLe);
    HeldAfterSorting(candidates, nameOf, role, Sort(placements, PathLe));
  }

  lemma HeldAfterSorting(candidates: seq<Candidate>, nameOf: string -> string, role: Role, layout: seq<Assignment>)
    requires multiset(layout) == multiset(Placements(candidates, nameOf))
    ensures Holds(layout, role, |OfRole(candidates, role)|)
  {
    var placements := Placements(candidates, nameOf);
    forall a | a in layout && a.candidate.role == role
      ensures exists i: nat :: i < |OfRole(candidates, role)| && a.parent == Placed(role, i)
    {
      SameElements(layout, placements, a);
      InRole(candidates, nameOf, a);
    }
    forall i: nat | i < |OfRole(candidates, role)|
      ensures HasRole(layout, Placed(role, i), role)
    {
      RoleIsPlaced(candidates, nameOf, role, i);
      var a :| a in placements && a.parent == Placed(role, i) && a.candidate.role == role;
      SameElements(layout, placements, a);
    }
  }

  lemma PlacedAcceptedIff(layout: seq<Assignment>, resumes: nat, ordinary: nat)
    requires IsPlaced(layout, resumes, ordinary)
    ensures BothKinds(layout) <==> resumes >= 2 && ordinary >= 1
  {
    if resumes >= 2 && ordinary >= 1 { KindsWhenEnough(layout, resumes, ordinary); }
    if BothKinds(layout) {
      var d :| ResumeOnlyAt(layout, d);
      var e :| MixedAt(layout, e);
      KindsNeedEnough(layout, resumes, ordinary, d, e);
    }
  }

  /** For every candidate list: the placed layout never fails the non-leaf check, and is
      accepted exactly when there are at least two resumes and one ordinary document. */
  lemma AcceptedIff(candidates: seq<Candidate>, nameOf: string -> string)
    ensures var layout := Sort(Placements(candidates, nameOf), PathLe);
            && NonLeavesHaveFiles(layout)
            && (BothKinds(layout) <==>
                |OfRole(candidates, Resume)| >= 2 && |OfRole(candidates, Ordinary)| >= 1)
  {
    var layout := Sort(Placements(candidates, nameOf), PathLe);
    var n, m := |OfRole(candidates, Resume)|, |OfRole(candidates, Ordinary)|;
    RoleIsHeld(candidates, nameOf, Resume);
    RoleIsHeld(candidates, nameOf, Ordinary);
    PlacedNonLeavesHaveFiles(layout, n, m);
    PlacedAcceptedIff(layout, n, m);
  }

  // ---------- depth balance ----------

  predicate IsAt(a: Assignment, roles: set<Role>, depth: nat) {
    a.candidate.role in roles && |a.parent| == depth
  }

  // How many files of the given roles a layout puts at a depth.
  function FilesAt(layout: seq<Assignment>, roles: set<Role>, depth: nat): nat {
    |Keep(layout, (a: Assignment) => IsAt(a, roles, depth))|
  }

  // n candidates dealt to four depths in turn.
  function Dealt(n: nat, depth: nat): nat {
    n / 4 + if depth < n % 4 then 1 else 0
  }

  lemma PlacedDepth(role: Role, i: nat)
    ensures |Placed(role, i)| == i % 4
  {}

  lemma {:induction false} RoleDepths(role: Role, items: seq<Candidate>, nameOf: string -> string,
                                      roles: set<Role>, depth: nat)
    requires depth <= 3 && forall i :: 0 <= i < |items| ==> items[i].role == role
    ensures FilesAt(RolePlacements(role, items, nameOf), roles, depth)
            == if role in roles then Dealt(|items|, depth) else 0
  {
    if items != [] {
      var n := |items| - 1;
      RoleDepths(role, items[..n], nameOf, roles, depth);
      var all := RolePlacements(role, items, nameOf);
      assert all[..n] == RolePlacements(role, items[..n], nameOf);
      PlacedDepth(role, n);
      OneMoreAt(all, roles, depth);
    }
  }

  lemma OneMoreAt(layout: seq<Assignment>, roles: set<Role>, depth: nat)
    requires layout != []
    ensures FilesAt(layout, roles, depth)
            == FilesAt(layout[..|layout| - 1], roles, depth)
               + if IsAt(layout[|layout| - 1], roles, depth) then 1 else 0
  {}

  /** Every layout of the candidates deals each role evenly to the four depths. */
  lemma LayoutDepths(candidates: seq<Candidate>, nameOf: string -> string, layout: seq<Assignment>,
                     roles: set<Role>, depth: nat)
    requires depth <= 3 && multiset(layout) == multiset(Placements(candidates, nameOf))
    ensures FilesAt(layout, roles, depth)
            == (if Resume in roles then Dealt(|OfRole(candidates, Resume)|, depth) else 0)
               + if Ordinary in roles then Dealt(|OfRole(candidates, Ordinary)|, depth) else 0
  {
    var p := (a: Assignment) => IsAt(a, roles, depth);
    var resumes, ordinary := OfRole(candidates, Resume), OfRole(candidates, Ordinary);
    var r, o := RolePlacements(Resume, resumes, nameOf), RolePlacements(Ordinary, ordinary, nameOf);
    assert forall i :: 0 <= i < |resumes| ==> resumes[i] in resumes;
    assert forall i :: 0 <= i < |ordinary| ==> ordinary[i] in ordinary;
    RoleDepths(Resume, resumes, nameOf, roles, depth);
    RoleDepths(Ordinary, ordinary, nameOf, roles, depth);
    KeepPermutes(layout, r + o, p);
    KeepConcat(r, o, p);
    assert FilesAt(layout, roles, depth) == |Keep(layout, p)|;
    assert FilesAt(r, roles, depth) == |Keep(r, p)| && FilesAt(o, roles, depth) == |Keep(o, p)|;
  }

  const BOTH: set<Role> := {Resume, Ordinary}

  function Spread(resumes: nat, ordinary: nat): nat {
    (if resumes % 4 > 0 then 1 else 0) + if ordinary % 4 > 0 then 1 else 0
  }

  // The depths of a layout differ by at most one within a role, and by at most the spread
  // over both roles, which is reached between the root and the cells.
  ghost predicate Balanced(layout: seq<Assignment>, resumes: nat, ordinary: nat) {
    && (forall role: Role, a: nat, b: nat :: a <= 3 && b <= 3 ==>
          FilesAt(layout, {role}, a) <= FilesAt(layout, {role}, b) + 1)
    && (forall a: nat, b: nat :: a <= 3 && b <= 3 ==>
          FilesAt(layout, BOTH, a) <= FilesAt(layout, BOTH, b) + Spread(resumes, ordinary))
    && FilesAt(layout, BOTH, 0) == FilesAt(layout, BOTH, 3) + Spread(resumes, ordinary)
  }

  /** Within a role the depths of a layout differ by at most one.  Over both roles the
      spread is one for each role whose count is not a multiple of four, so it can reach
      two. */
  lemma DepthsAreBalanced(candidates: seq<Candidate>, nameOf: string -> string, layout: seq<Assignment>)
    requires multiset(layout) == multiset(Placements(candidates, nameOf))
    ensures Balanced(layout, |OfRole(candidates, Resume)|, |OfRole(candidates, Ordinary)|)
  {
    var n, m := |OfRole(candidates, Resume)|, |OfRole(candidates, Ordinary)|;
    forall role: Role, a: nat, b: nat | a <= 3 && b <= 3
      ensures FilesAt(layout, {role}, a) <= FilesAt(layout, {role}, b) + 1
    {
      LayoutDepths(candidates, nameOf, layout, {role}, a);
      LayoutDepths(candidates, nameOf, layout, {role}, b);
    }
    forall a: nat, b: nat | a <= 3 && b <= 3
      ensures FilesAt(layout, BOTH, a) <= FilesAt(layout, BOTH, b) + Spread(n, m)
    {
      LayoutDepths(candidates, nameOf, layout, BOTH, a);
      LayoutDepths(candidates, nameOf, layout, BOTH, b);
    }
    LayoutDepths(candidates, nameOf, layout, BOTH, 0);
    LayoutDepths(candidates, nameOf, layout, BOTH, 3);
  }

  /** Placement followed by the contract check. */
  method LayOut(candidates: seq<Candidate>, nameOf: string -> string)
    returns (layout: seq<Assignment>, r: Result<Contract, ScopeInvalid>)
    ensures multiset(layout) == multiset(Placements(candidates, nameOf))
    ensures multiset(CandidatesOf(layout)) == multiset(candidates)
    ensures r != Failure(NonLeafWithoutFiles)
    ensures r.Success? <==> |OfRole(candidates, Resume)| >= 2 && |OfRole(candidates, Ordinary)| >= 1
    ensures Balanced(layout, |OfRole(candidates, Resume)|, |OfRole(candidates, Ordinary)|)
  {
    layout := AssignLayout(candidates, nameOf);
    SortPermutes(Placements(candidates, nameOf), PathLe);
    AcceptedIff(candidates, nameOf);
    DepthsAreBalanced(candidates, nameOf, layout);
    NoCandidateIsLost(candidates, nameOf, layout);
    r := CheckContract(layout);
  }
}
