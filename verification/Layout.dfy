/** Placement of benchmark files into the three-level directory tree, and the contract
    check over the result.  A directory is the list of its numbers: [] is the root,
    [s] a sector, [s, u] a unit and [s, u, c] a cell. */
module Layout {
  import opened Wrappers
  import opened Decimal
  import opened Sequences
  import opened Sorting
  import opened InputHasher

  datatype Role = Resume | Ordinary

  datatype Candidate = Candidate(role: Role, stableId: string, extension: string)

  type Dir = seq<nat>

  datatype Assignment = Assignment(candidate: Candidate, parent: Dir, name: string)

  // Both are the same rejection to the caller.
  datatype ScopeInvalid = NonLeafWithoutFiles | DirectoryKindMissing

  datatype Contract = Contract(maxDepth: nat, resumeOnly: nat, mixed: nat)

  // ---------- directory pools ----------

  // The j-th directory of a depth: three sectors, and two children for each directory.
  function DirAt(depth: nat, j: nat): (d: Dir)
    requires depth >= 1
    ensures |d| == depth
  {
    if depth == 1 then [j + 1] else DirAt(depth - 1, j / 2) + [j % 2 + 1]
  }

  // How many directories of a depth lie in one sector.
  function PerSector(depth: nat): (n: nat)
    requires depth >= 1
    ensures n >= 1
  {
    if depth == 1 then 1 else 2 * PerSector(depth - 1)
  }

  // Sector 1 takes resumes only; ordinary documents start at sector 2.
  function PoolSize(role: Role, depth: nat): (n: nat)
    requires depth >= 1
    ensures n >= 1
  {
    if role == Resume then 3 * PerSector(depth) else 2 * PerSector(depth)
  }

  function PoolDir(role: Role, depth: nat, j: nat): Dir
    requires depth >= 1
  {
    DirAt(depth, if role == Resume then j else j + PerSector(depth))
  }

  type Pools = m: map<nat, seq<Dir>> | m.Keys == {1, 2, 3} witness map[1 := [], 2 := [], 3 := []]

  // The first `n` directories of a depth, those of sector 1 apart from the others.
  ghost predicate Listed(resumeOnly: seq<Dir>, mixed: seq<Dir>, depth: nat, n: nat)
    requires depth >= 1
  {
    && |resumeOnly| == (if n < PerSector(depth) then n else PerSector(depth))
    && |resumeOnly| + |mixed| == n
    && forall j :: 0 <= j < n ==> (resumeOnly + mixed)[j] == DirAt(depth, j)
  }

  lemma ListNext(resumeOnly: seq<Dir>, mixed: seq<Dir>, depth: nat, n: nat, d: Dir)
    requires depth >= 1 && Listed(resumeOnly, mixed, depth, n) && d == DirAt(depth, n)
    ensures n < PerSector(depth) ==> Listed(resumeOnly + [d], mixed, depth, n + 1)
    ensures n >= PerSector(depth) ==> Listed(resumeOnly, mixed + [d], depth, n + 1)
  {
    if n < PerSector(depth) {
      assert mixed == [];
      assert resumeOnly + [d] + mixed == resumeOnly + mixed + [d];
    } else {
      assert resumeOnly + (mixed + [d]) == resumeOnly + mixed + [d];
    }
  }

  // Pools holding the first directories of each depth.
  ghost predicate Filled(resumeOnly: Pools, mixed: Pools, sectors: nat, units: nat, cells: nat) {
    && Listed(resumeOnly[1], mixed[1], 1, sectors)
    && Listed(resumeOnly[2], mixed[2], 2, units)
    && Listed(resumeOnly[3], mixed[3], 3, cells)
  }

  // Adds to the first pool while in sector 1, to the second otherwise.
  method AddTo(resumeOnly: Pools, mixed: Pools, sector: nat, depth: nat, d: Dir, ghost n: nat)
    returns (r: Pools, m: Pools)
    requires 1 <= depth <= 3 && Listed(resumeOnly[depth], mixed[depth], depth, n) && d == DirAt(depth, n)
    requires sector == 1 <==> n < PerSector(depth)
    ensures Listed(r[depth], m[depth], depth, n + 1)
    ensures forall k :: k in {1, 2, 3} && k != depth ==> r[k] == resumeOnly[k] && m[k] == mixed[k]
  {
    ListNext(resumeOnly[depth], mixed[depth], depth, n, d);
    r, m := resumeOnly, mixed;
    if sector == 1 {
      r := r[depth := r[depth] + [d]];
    } else {
      m := m[depth := m[depth] + [d]];
    }
  }

  method AddCell(resumeOnly: Pools, mixed: Pools, sector: nat, d: Dir, ghost sectors: nat, ghost units: nat,
                 ghost cells: nat)
    returns (r: Pools, m: Pools)
    requires Filled(resumeOnly, mixed, sectors, units, cells) && d == DirAt(3, cells)
    requires sector == 1 <==> cells < PerSector(3)
    ensures Filled(r, m, sectors, units, cells + 1)
  {
    r, m := AddTo(resumeOnly, mixed, sector, 3, d, cells);
  }

  method AddCells(resumeOnly: Pools, mixed: Pools, sector: nat, unit: nat, ghost units: nat)
    returns (r: Pools, m: Pools)
    requires 1 <= sector <= 3 && 1 <= unit <= 2 && units == 2 * (sector - 1) + unit
    requires Filled(resumeOnly, mixed, sector, units, 2 * units - 2)
    ensures Filled(r, m, sector, units, 2 * units)
  {
    r, m := resumeOnly, mixed;
    ghost var n := 2 * units - 2;
    for cell := 1 to 3
      invariant n == 2 * units - 3 + cell && Filled(r, m, sector, units, n)
    {
      CellIsNext(sector, unit, cell, n);
      r, m := AddCell(r, m, sector, [sector, unit, cell], sector, units, n);
      n := n + 1;
    }
  }

  lemma CellAt(sector: nat, unit: nat, cell: nat)
    requires 1 <= sector <= 3 && 1 <= unit <= 2 && 1 <= cell <= 2
    ensures PerSector(1) == 1 && PerSector(2) == 2 && PerSector(3) == 4
    ensures DirAt(1, sector - 1) == [sector]
    ensures DirAt(2, 2 * (sector - 1) + (unit - 1)) == [sector, unit]
    ensures DirAt(3, 4 * (sector - 1) + 2 * (unit - 1) + (cell - 1)) == [sector, unit, cell]
  {
    var j := 2 * (sector - 1) + (unit - 1);
    assert DirAt(2, j) == DirAt(1, j / 2) + [j % 2 + 1];
    assert DirAt(3, 2 * j + (cell - 1)) == DirAt(2, j) + [cell];
  }

  lemma CellIsNext(sector: nat, unit: nat, cell: nat, n: nat)
    requires 1 <= sector <= 3 && 1 <= unit <= 2 && 1 <= cell <= 2
    requires n == 4 * (sector - 1) + 2 * (unit - 1) + (cell - 1)
    ensures DirAt(3, n) == [sector, unit, cell] && (sector == 1 <==> n < PerSector(3))
  {
    CellAt(sector, unit, cell);
  }

  // One unit with its cells, as unit `n` over all sectors.
  method AddUnit(resumeOnly: Pools, mixed: Pools, sector: nat, unit: nat, ghost n: nat) returns (r: Pools, m: Pools)
    requires 1 <= sector <= 3 && 1 <= unit <= 2 && n == 2 * (sector - 1) + (unit - 1)
    requires Filled(resumeOnly, mixed, sector, n, 2 * n)
    ensures Filled(r, m, sector, n + 1, 2 * (n + 1))
  {
    CellAt(sector, unit, 1);
    r, m := AddTo(resumeOnly, mixed, sector, 2, [sector, unit], n);
    r, m := AddCells(r, m, sector, unit, n + 1);
  }

  method AddUnits(resumeOnly: Pools, mixed: Pools, sector: nat) returns (r: Pools, m: Pools)
    requires 1 <= sector <= 3 && Filled(resumeOnly, mixed, sector, 2 * sector - 2, 4 * sector - 4)
    ensures Filled(r, m, sector, 2 * sector, 4 * sector)
  {
    r, m := resumeOnly, mixed;
    ghost var n := 2 * sector - 2;
    for unit := 1 to 3
      invariant n == 2 * sector - 3 + unit && Filled(r, m, sector, n, 2 * n)
    {
      r, m := AddUnit(r, m, sector, unit, n);
      n := n + 1;
    }
  }

  /** Lists the directories of each depth: those of sector 1 in the first pool, the
      others in the second. */
  method DirectoryPools() returns (resumeOnly: Pools, mixed: Pools)
    ensures Filled(resumeOnly, mixed, 3, 6, 12)
  {
    resumeOnly := map[1 := [], 2 := [], 3 := []];
    mixed := map[1 := [], 2 := [], 3 := []];
    for sector := 1 to 4
      invariant Filled(resumeOnly, mixed, sector - 1, 2 * sector - 2, 4 * sector - 4)
    {
      CellAt(sector, 1, 1);
      resumeOnly, mixed := AddTo(resumeOnly, mixed, sector, 1, [sector], sector - 1);
      resumeOnly, mixed := AddUnits(resumeOnly, mixed, sector);
    }
  }

  function Parent(d: Dir): Dir
    requires d != []
  {
    d[..|d| - 1]
  }

  /** The parent of the j-th directory of a pool is entry j / 2 of the pool one level up. */
  lemma ParentIndex(role: Role, depth: nat, j: nat)
    requires depth >= 2 && j < PoolSize(role, depth)
    ensures j / 2 < PoolSize(role, depth - 1)
    ensures Parent(PoolDir(role, depth, j)) == PoolDir(role, depth - 1, j / 2)
  {
    var offset := if role == Resume then 0 else PerSector(depth);
    assert (j + offset) / 2 == j / 2 + offset / 2;
  }

  // ---------- placement ----------

  // Where the i-th candidate of a role goes.
  function Placed(role: Role, i: nat): Dir {
    var depth := i % 4;
    if depth == 0 then [] else PoolDir(role, depth, (i / 4) % PoolSize(role, depth))
  }

  function OfRole(candidates: seq<Candidate>, role: Role): (items: seq<Candidate>)
    ensures forall c :: c in items ==> c.role == role
  {
    if candidates == [] then []
    else
      var n := |candidates| - 1;
      OfRole(candidates[..n], role) + if candidates[n].role == role then [candidates[n]] else []
  }

  function Name(c: Candidate, nameOf: string -> string): string {
    "item-" + nameOf(c.stableId) + c.extension
  }

  function RolePlacements(role: Role, items: seq<Candidate>, nameOf: string -> string): (r: seq<Assignment>)
    ensures |r| == |items|
    ensures forall i :: 0 <= i < |r| ==> r[i] == Assignment(items[i], Placed(role, i), Name(items[i], nameOf))
  {
    seq(|items|, i requires 0 <= i < |items| => Assignment(items[i], Placed(role, i), Name(items[i], nameOf)))
  }

  function Placements(candidates: seq<Candidate>, nameOf: string -> string): seq<Assignment> {
    RolePlacements(Resume, OfRole(candidates, Resume), nameOf)
    + RolePlacements(Ordinary, OfRole(candidates, Ordinary), nameOf)
  }

  function PartName(level: nat): string {
    if level == 0 then "sector-" else if level == 1 then "unit-" else "cell-"
  }

  function Rendered(d: Dir): string {
    if d == [] then ""
    else Rendered(d[..|d| - 1]) + PartName(|d| - 1) + Padded(d[|d| - 1], 2) + "/"
  }

  predicate PathLe(a: Assignment, b: Assignment) {
    NameLe(Rendered(a.parent) + a.name, Rendered(b.parent) + b.name)
  }

  // Each depth's counter holds how many candidates have gone there.
  predicate Counted(counters: map<nat, nat>, index: nat) {
    counters.Keys == {1, 2, 3} && forall depth :: depth in counters ==> counters[depth] == (index + 3 - depth) / 4
  }

  lemma CountNext(counters: map<nat, nat>, index: nat)
    requires Counted(counters, index)
    ensures index % 4 == 0 ==> Counted(counters, index + 1)
    ensures index % 4 != 0 ==>
              counters[index % 4] == index / 4 && Counted(counters[index % 4 := index / 4 + 1], index + 1)
  {}

  method PlaceOne(role: Role, index: nat, counters: map<nat, nat>, resumeOnly: Pools, mixed: Pools)
    returns (parent: Dir, updated: map<nat, nat>)
    requires Filled(resumeOnly, mixed, 3, 6, 12) && Counted(counters, index)
    ensures parent == Placed(role, index) && Counted(updated, index + 1)
  {
    var depth := index % 4;
    parent, updated := [], counters;
    CountNext(counters, index);
    if depth != 0 {
      var pool := if role == Ordinary then mixed[depth] else resumeOnly[depth] + mixed[depth];
      var cursor := counters[depth];
      PoolEntry(role, depth, cursor, resumeOnly, mixed);
      parent := pool[cursor % |pool|];
      updated := counters[depth := cursor + 1];
    }
  }

  method PlaceRole(role: Role, items: seq<Candidate>, nameOf: string -> string,
                   resumeOnly: Pools, mixed: Pools) returns (assignments: seq<Assignment>)
    requires Filled(resumeOnly, mixed, 3, 6, 12)
    ensures assignments == RolePlacements(role, items, nameOf)
  {
    var counters: map<nat, nat> := map[1 := 0, 2 := 0, 3 := 0];
    assignments := [];
    ghost var all := RolePlacements(role, items, nameOf);
    for index := 0 to |items|
      invariant assignments == all[..index]
      invariant Counted(counters, index)
    {
      var parent;
      parent, counters := PlaceOne(role, index, counters, resumeOnly, mixed);
      var next := Assignment(items[index], parent, Name(items[index], nameOf));
      assert all[..index + 1] == all[..index] + [next];
      assignments := assignments + [next];
    }
    assert all[..|items|] == all;
  }

  lemma PoolEntry(role: Role, depth: nat, cursor: nat, resumeOnly: Pools, mixed: Pools)
    requires 1 <= depth <= 3 && Filled(resumeOnly, mixed, 3, 6, 12)
    ensures var pool := if role == Ordinary then mixed[depth] else resumeOnly[depth] + mixed[depth];
            && |pool| == PoolSize(role, depth)
            && pool[cursor % |pool|] == PoolDir(role, depth, cursor % |pool|)
  {
    CellAt(1, 1, 1);
    if role == Ordinary {
      var j := cursor % |mixed[depth]|;
      assert mixed[depth][j] == (resumeOnly[depth] + mixed[depth])[|resumeOnly[depth]| + j];
    }
  }

  method AssignLayout(candidates: seq<Candidate>, nameOf: string -> string) returns (assignments: seq<Assignment>)
    ensures assignments == Sort(Placements(candidates, nameOf), PathLe)
  {
    var resumeOnly, mixed := DirectoryPools();
    var resumes := PlaceRole(Resume, OfRole(candidates, Resume), nameOf, resumeOnly, mixed);
    var ordinary := PlaceRole(Ordinary, OfRole(candidates, Ordinary), nameOf, resumeOnly, mixed);
    return Sort(resumes + ordinary, PathLe);
  }

  // ---------- what a layout holds ----------

  function CandidatesOf(layout: seq<Assignment>): (cs: seq<Candidate>)
    ensures |cs| == |layout| && forall i :: 0 <= i < |cs| ==> cs[i] == layout[i].candidate
  {
    seq(|layout|, i requires 0 <= i < |layout| => layout[i].candidate)
  }

  lemma {:induction false} CandidateCount(layout: seq<Assignment>, c: Candidate)
    ensures multiset(CandidatesOf(layout))[c] == |Keep(layout, (a: Assignment) => a.candidate == c)|
  {
    var p := (a: Assignment) => a.candidate == c;
    if layout == [] {
      assert CandidatesOf(layout) == [] && Keep(layout, p) == [];
    } else {
      var n := |layout| - 1;
      CandidateCount(layout[..n], c);
      assert CandidatesOf(layout) == CandidatesOf(layout[..n]) + [layout[n].candidate];
    }
  }

  lemma CandidatesPermute(a: seq<Assignment>, b: seq<Assignment>)
    requires multiset(a) == multiset(b)
    ensures multiset(CandidatesOf(a)) == multiset(CandidatesOf(b))
  {
    forall c
      ensures multiset(CandidatesOf(a))[c] == multiset(CandidatesOf(b))[c]
    {
      CandidateCount(a, c);
      CandidateCount(b, c);
      KeepPermutes(a, b, (x: Assignment) => x.candidate == c);
    }
  }

  lemma {:induction false} CountInRole(candidates: seq<Candidate>, role: Role, c: Candidate)
    ensures multiset(OfRole(candidates, role))[c] == if c.role == role then multiset(candidates)[c] else 0
  {
    if candidates != [] {
      var n := |candidates| - 1;
      CountInRole(candidates[..n], role, c);
      assert candidates == candidates[..n] + [candidates[n]];
    }
  }

  lemma RolesPartition(candidates: seq<Candidate>)
    ensures multiset(OfRole(candidates, Resume)) + multiset(OfRole(candidates, Ordinary)) == multiset(candidates)
  {
    forall c: Candidate
      ensures (multiset(OfRole(candidates, Resume)) + multiset(OfRole(candidates, Ordinary)))[c]
              == multiset(candidates)[c]
    {
      CountInRole(candidates, Resume, c);
      CountInRole(candidates, Ordinary, c);
    }
  }

  lemma CandidatesJoin(a: seq<Assignment>, b: seq<Assignment>)
    ensures CandidatesOf(a + b) == CandidatesOf(a) + CandidatesOf(b)
  {}

  lemma RoleCandidates(role: Role, items: seq<Candidate>, nameOf: string -> string)
    ensures CandidatesOf(RolePlacements(role, items, nameOf)) == items
  {}

  /** Every candidate is placed once, whatever the order of the layout. */
  lemma NoCandidateIsLost(candidates: seq<Candidate>, nameOf: string -> string, layout: seq<Assignment>)
    requires multiset(layout) == multiset(Placements(candidates, nameOf))
    ensures multiset(CandidatesOf(layout)) == multiset(candidates)
  {
    var resumes, ordinary := OfRole(candidates, Resume), OfRole(candidates, Ordinary);
    CandidatesPermute(layout, Placements(candidates, nameOf));
    CandidatesJoin(RolePlacements(Resume, resumes, nameOf), RolePlacements(Ordinary, ordinary, nameOf));
    RoleCandidates(Resume, resumes, nameOf);
    RoleCandidates(Ordinary, ordinary, nameOf);
    RolesPartition(candidates);
  }

  /** A file is named after its candidate's derived name and keeps its extension. */
  lemma PlacementName(candidates: seq<Candidate>, nameOf: string -> string, a: Assignment)
    requires a in Placements(candidates, nameOf)
    ensures a.name == "item-" + nameOf(a.candidate.stableId) + a.candidate.extension
  {}

  /** The directories of the tree by name. */
  lemma RenderedIs(sector: nat, unit: nat, cell: nat)
    ensures Rendered([]) == ""
    ensures Rendered([sector]) == "sector-" + Padded(sector, 2) + "/"
    ensures Rendered([sector, unit]) == "sector-" + Padded(sector, 2) + "/unit-" + Padded(unit, 2) + "/"
    ensures Rendered([sector, unit, cell])
            == "sector-" + Padded(sector, 2) + "/unit-" + Padded(unit, 2) + "/cell-" + Padded(cell, 2) + "/"
  {
    assert [sector][..0] == [] && [sector, unit][..1] == [sector] && [sector, unit, cell][..2] == [sector, unit];
  }

  function Path(a: Assignment): string {
    Rendered(a.parent) + a.name
  }

  lemma PathLeIsTotal()
    ensures TotalPreorder(PathLe)
  {
    forall a: Assignment, b: Assignment
      ensures PathLe(a, b) || PathLe(b, a)
    {
      LexTotal(Path(a), Path(b), CodePoint);
    }
    forall a: Assignment, b: Assignment, c: Assignment | PathLe(a, b) && PathLe(b, c)
      ensures PathLe(a, c)
    {
      LexTransitive(Path(a), Path(b), Path(c), CodePoint);
    }
  }

  /** The layout is in the order of its paths. */
  lemma LayoutIsOrdered(candidates: seq<Candidate>, nameOf: string -> string, i: nat, j: nat)
    requires i < j < |Placements(candidates, nameOf)|
    ensures var layout := Sort(Placements(candidates, nameOf), PathLe); NameLe(Path(layout[i]), Path(layout[j]))
  {
    PathLeIsTotal();
    SortSorts(Placements(candidates, nameOf), PathLe);
    var layout := Sort(Placements(candidates, nameOf), PathLe);
    assert PathLe(layout[i], layout[j]);
  }
}
