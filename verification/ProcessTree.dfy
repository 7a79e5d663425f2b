/** Two ways of collecting the processes below a root from a process listing: a fixpoint
    over the rows, and a worklist over a table keyed by process id. */
module ProcessTree {
  import opened Wrappers
  import opened Sequences

  datatype Row = Row(pid: int, parent: int, rss: int)

  // ---------- descendants ----------

  // Parent-to-child relations: the rows of a listing, or the entries of a table.
  type Relation = (int, int) -> bool

  predicate RowEdge(rows: seq<Row>, a: int, b: int) {
    exists i :: 0 <= i < |rows| && rows[i].parent == a && rows[i].pid == b
  }

  function RowEdges(rows: seq<Row>): Relation {
    (a, b) => RowEdge(rows, a, b)
  }

  ghost predicate IsPath(e: Relation, p: seq<int>) {
    p != [] && forall i :: 0 <= i < |p| - 1 ==> e(p[i], p[i + 1])
  }

  ghost predicate Joins(e: Relation, a: int, b: int, p: seq<int>) {
    IsPath(e, p) && p[0] == a && p[|p| - 1] == b
  }

  ghost predicate Descends(e: Relation, root: int, pid: int) {
    exists p :: Joins(e, root, pid, p)
  }

  // The root is reached again from itself by at least one step.
  ghost predicate OnCycle(e: Relation, root: int) {
    exists x :: Descends(e, root, x) && e(x, root)
  }

  ghost predicate Closed(e: Relation, s: set<int>) {
    forall a, b :: a in s && e(a, b) ==> b in s
  }

  lemma ChildDescends(e: Relation, root: int, parent: int, child: int)
    requires Descends(e, root, parent) && e(parent, child)
    ensures Descends(e, root, child)
  {
    var p :| Joins(e, root, parent, p);
    assert Joins(e, root, child, p + [child]);
  }

  lemma ClosedStep(e: Relation, s: set<int>, a: int, b: int)
    requires Closed(e, s) && a in s && e(a, b)
    ensures b in s
  {}

  lemma {:induction false} ClosedHoldsPath(e: Relation, s: set<int>, p: seq<int>)
    requires Closed(e, s) && IsPath(e, p) && p[0] in s
    ensures p[|p| - 1] in s
  {
    var n := |p| - 1;
    if n > 0 {
      ClosedHoldsPath(e, s, p[..n]);
      assert p[n - 1] == p[..n][n - 1];
      ClosedStep(e, s, p[n - 1], p[n]);
    }
  }

  lemma RootDescends(e: Relation, root: int)
    ensures Descends(e, root, root)
  {
    assert Joins(e, root, root, [root]);
  }

  // A closed set of descendants that holds the root is the set of all descendants.
  lemma ClosedIsAll(e: Relation, root: int, s: set<int>)
    requires Closed(e, s) && root in s && forall x :: x in s ==> Descends(e, root, x)
    ensures forall x :: x in s <==> Descends(e, root, x)
  {
    forall x | Descends(e, root, x)
      ensures x in s
    {
      var p :| Joins(e, root, x, p);
      ClosedHoldsPath(e, s, p);
    }
  }

  // ---------- the fixpoint ----------

  function RowTotal(rows: seq<Row>, s: set<int>): int {
    if rows == [] then 0
    else RowTotal(rows[..|rows| - 1], s) + if rows[|rows| - 1].pid in s then rows[|rows| - 1].rss else 0
  }

  function SumRss(rows: seq<Row>): int {
    if rows == [] then 0 else rows[0].rss + SumRss(rows[1..])
  }

  lemma {:induction false} SumRssAppends(rows: seq<Row>, r: Row)
    ensures SumRss(rows + [r]) == SumRss(rows) + r.rss
  {
    if rows == [] {
      assert rows + [r] == [r];
      assert [r][1..] == [];
    } else {
      SumRssAppends(rows[1..], r);
      assert (rows + [r])[1..] == rows[1..] + [r];
    }
  }

  // The resident sizes of the rows of the given processes.
  function RssOf(rows: seq<Row>, s: set<int>): int {
    SumRss(Keep(rows, (r: Row) => r.pid in s))
  }

  lemma {:induction false} TotalIsSum(rows: seq<Row>, s: set<int>)
    ensures RowTotal(rows, s) == RssOf(rows, s)
  {
    var p := (r: Row) => r.pid in s;
    if rows == [] {
      assert Keep(rows, p) == [];
    } else {
      var n := |rows| - 1;
      TotalIsSum(rows[..n], s);
      assert RssOf(rows[..n], s) == SumRss(Keep(rows[..n], p));
      SumRssAppends(Keep(rows[..n], p), rows[n]);
      assert p(rows[n]) ==> Keep(rows, p) == Keep(rows[..n], p) + [rows[n]];
      assert !p(rows[n]) ==> Keep(rows, p) == Keep(rows[..n], p);
    }
    assert RssOf(rows, s) == SumRss(Keep(rows, p));
  }

  ghost predicate RowsClosed(rows: seq<Row>, n: nat, s: set<int>)
    requires n <= |rows|
  {
    forall k :: 0 <= k < n && rows[k].parent in s ==> rows[k].pid in s
  }

  ghost predicate AllDescend(e: Relation, root: int, s: set<int>) {
    root in s && forall x :: x in s ==> Descends(e, root, x)
  }

  lemma RowsClosedIsClosed(rows: seq<Row>, s: set<int>)
    requires RowsClosed(rows, |rows|, s)
    ensures Closed(RowEdges(rows), s)
  {}

  lemma GrowDescendants(rows: seq<Row>, root: int, s: set<int>, i: nat)
    requires i < |rows| && AllDescend(RowEdges(rows), root, s) && rows[i].parent in s
    ensures AllDescend(RowEdges(rows), root, s + {rows[i].pid})
  {
    assert RowEdge(rows, rows[i].parent, rows[i].pid);
    ChildDescends(RowEdges(rows), root, rows[i].parent, rows[i].pid);
  }

  lemma Shrinks(pids: set<int>, s: set<int>, x: int)
    requires x in pids && x !in s
    ensures |pids - (s + {x})| < |pids - s|
  {
    assert pids - (s + {x}) == (pids - s) - {x};
  }

  // One pass over the rows.
  method Pass(rows: seq<Row>, root: int, s: set<int>, ghost pids: set<int>) returns (grown: set<int>, changed: bool)
    requires AllDescend(RowEdges(rows), root, s) && forall i :: 0 <= i < |rows| ==> rows[i].pid in pids
    ensures AllDescend(RowEdges(rows), root, grown)
    ensures if changed then |pids - grown| < |pids - s| else grown == s && RowsClosed(rows, |rows|, s)
  {
    grown, changed := s, false;
    for i := 0 to |rows|
      invariant AllDescend(RowEdges(rows), root, grown)
      invariant if changed then |pids - grown| < |pids - s| else grown == s && RowsClosed(rows, i, s)
    {
      if rows[i].parent in grown && rows[i].pid !in grown {
        GrowDescendants(rows, root, grown, i);
        Shrinks(pids, grown, rows[i].pid);
        grown := grown + {rows[i].pid};
        changed := true;
      }
    }
  }

  /** Ends on every process listing, and collects exactly the descendants of the root. */
  method Descendants(rows: seq<Row>, root: int) returns (descendants: set<int>)
    ensures forall x :: x in descendants <==> Descends(RowEdges(rows), root, x)
  {
    descendants := {root};
    RootDescends(RowEdges(rows), root);
    ghost var pids := set r | r in rows :: r.pid;
    assert forall i :: 0 <= i < |rows| ==> rows[i] in rows && rows[i].pid in pids;
    var changed := true;
    while changed
      invariant AllDescend(RowEdges(rows), root, descendants)
      invariant !changed ==> RowsClosed(rows, |rows|, descendants)
      decreases |pids - descendants|, changed
    {
      descendants, changed := Pass(rows, root, descendants, pids);
    }
    RowsClosedIsClosed(rows, descendants);
    ClosedIsAll(RowEdges(rows), root, descendants);
  }

  method TotalOf(rows: seq<Row>, s: set<int>) returns (total: int)
    ensures total == RowTotal(rows, s)
  {
    total := 0;
    for i := 0 to |rows|
      invariant total == RowTotal(rows[..i], s)
    {
      assert rows[..i + 1][..i] == rows[..i];
      if rows[i].pid in s { total := total + rows[i].rss; }
    }
    assert rows[..|rows|] == rows;
  }

  method ProcessTreeRss(rows: seq<Row>, root: int) returns (total: int, ghost descendants: set<int>)
    ensures forall x :: x in descendants <==> Descends(RowEdges(rows), root, x)
    ensures total == RssOf(rows, descendants)
  {
    var found := Descendants(rows, root);
    descendants := found;
    total := TotalOf(rows, found);
    TotalIsSum(rows, found);
  }

  // ---------- the worklist ----------

  predicate UniquePids(rows: seq<Row>) {
    forall i, j :: 0 <= i < j < |rows| ==> rows[i].pid != rows[j].pid
  }

  // Writes a row to the table: in place of the row with the same pid, or at the end.
  function Put(table: seq<Row>, r: Row): seq<Row> {
    if table == [] then [r]
    else if table[0].pid == r.pid then [r] + table[1..]
    else [table[0]] + Put(table[1..], r)
  }

  function TableOf(rows: seq<Row>): seq<Row> {
    if rows == [] then [] else Put(TableOf(rows[..|rows| - 1]), rows[|rows| - 1])
  }

  lemma {:induction false} PutKeepsUnique(table: seq<Row>, r: Row)
    requires UniquePids(table)
    ensures UniquePids(Put(table, r))
    ensures forall x :: x in Put(table, r) ==> x in table || x == r
  {
    if table != [] && table[0].pid != r.pid {
      var rest := Put(table[1..], r);
      PutKeepsUnique(table[1..], r);
      forall j | 0 <= j < |rest|
        ensures rest[j].pid != table[0].pid
      {
        assert rest[j] in rest;
      }
    }
  }

  lemma {:induction false} TableIsUnique(rows: seq<Row>)
    ensures UniquePids(TableOf(rows))
  {
    if rows != [] {
      TableIsUnique(rows[..|rows| - 1]);
      PutKeepsUnique(TableOf(rows[..|rows| - 1]), rows[|rows| - 1]);
    }
  }

  lemma {:induction false} PutHolds(table: seq<Row>, r: Row, x: Row)
    requires UniquePids(table)
    ensures x in Put(table, r) <==> x == r || (x in table && x.pid != r.pid)
  {
    if table != [] {
      PutHolds(table[1..], r, x);
      assert table == [table[0]] + table[1..];
    }
  }

  // A listed row that no later row with the same pid replaces.
  ghost predicate LatestRow(rows: seq<Row>, x: Row) {
    exists k :: 0 <= k < |rows| && rows[k] == x && forall j :: k < j < |rows| ==> rows[j].pid != x.pid
  }

  lemma LatestRowBefore(rows: seq<Row>, r: Row, x: Row)
    requires LatestRow(rows + [r], x) && x != r
    ensures LatestRow(rows, x) && x.pid != r.pid
  {
    var all := rows + [r];
    var k :| 0 <= k < |all| && all[k] == x && forall j :: k < j < |all| ==> all[j].pid != x.pid;
    assert all[|rows|] == r && rows[k] == x;
    assert forall j :: k < j < |rows| ==> rows[j] == all[j];
  }

  lemma LatestRowNext(rows: seq<Row>, r: Row, x: Row)
    ensures LatestRow(rows + [r], x) <==> x == r || (LatestRow(rows, x) && x.pid != r.pid)
  {
    var all := rows + [r];
    if x == r {
      assert all[|rows|] == x;
    } else if LatestRow(rows, x) && x.pid != r.pid {
      var k :| 0 <= k < |rows| && rows[k] == x && forall j :: k < j < |rows| ==> rows[j].pid != x.pid;
      assert all[k] == x;
    }
    if LatestRow(all, x) && x != r { LatestRowBefore(rows, r, x); }
  }

  /** The table holds, for every listed pid, the last row that has it. */
  lemma {:induction false} TableIsLatest(rows: seq<Row>, x: Row)
    ensures x in TableOf(rows) <==> LatestRow(rows, x)
  {
    if rows != [] {
      var n := |rows| - 1;
      TableIsLatest(rows[..n], x);
      TableIsUnique(rows[..n]);
      PutHolds(TableOf(rows[..n]), rows[n], x);
      LatestRowNext(rows[..n], rows[n], x);
      assert rows == rows[..n] + [rows[n]];
    }
  }

  lemma {:induction false} TableHasPid(rows: seq<Row>, pid: int)
    ensures HasPid(TableOf(rows), pid) <==> exists row :: row in rows && row.pid == pid
  {
    if rows != [] {
      var n := |rows| - 1;
      TableHasPid(rows[..n], pid);
      TableIsUnique(rows[..n]);
      PutHasPid(TableOf(rows[..n]), rows[n], pid);
      assert rows == rows[..n] + [rows[n]];
    }
  }

  lemma PutHasPid(table: seq<Row>, r: Row, pid: int)
    requires UniquePids(table)
    ensures HasPid(Put(table, r), pid) <==> HasPid(table, pid) || pid == r.pid
  {
    PidListed(table, pid);
    PidListed(Put(table, r), pid);
    PutHolds(table, r, r);
    forall x: Row
      ensures x in Put(table, r) <==> x == r || (x in table && x.pid != r.pid)
    {
      PutHolds(table, r, x);
    }
  }

  lemma PidListed(rows: seq<Row>, pid: int)
    ensures HasPid(rows, pid) <==> exists row :: row in rows && row.pid == pid
  {
    if HasPid(rows, pid) {
      var i :| 0 <= i < |rows| && rows[i].pid == pid;
      assert rows[i] in rows;
    }
  }

  lemma {:induction false} PutFresh(table: seq<Row>, r: Row)
    requires forall i :: 0 <= i < |table| ==> table[i].pid != r.pid
    ensures Put(table, r) == table + [r]
  {
    if table != [] {
      PutFresh(table[1..], r);
      assert table + [r] == [table[0]] + (table[1..] + [r]);
    }
  }

  lemma {:induction false} UniqueRowsAreTheTable(rows: seq<Row>)
    requires UniquePids(rows)
    ensures TableOf(rows) == rows
  {
    if rows != [] {
      var n := |rows| - 1;
      UniqueRowsAreTheTable(rows[..n]);
      PutFresh(rows[..n], rows[n]);
      assert rows == rows[..n] + [rows[n]];
    }
  }

  function Children(table: seq<Row>, parent: int): seq<int> {
    if table == [] then []
    else
      var n := |table| - 1;
      Children(table[..n], parent) + if table[n].parent == parent then [table[n].pid] else []
  }

  lemma {:induction false} ChildrenHold(table: seq<Row>, parent: int, x: int)
    ensures x in Children(table, parent) <==> RowEdge(table, parent, x)
  {
    if table != [] {
      var n := |table| - 1;
      ChildrenHold(table[..n], parent, x);
      if RowEdge(table[..n], parent, x) {
        var i :| 0 <= i < n && table[..n][i].parent == parent && table[..n][i].pid == x;
        assert table[i].parent == parent && table[i].pid == x;
      }
      if RowEdge(table, parent, x) && !(table[n].parent == parent && table[n].pid == x) {
        var i :| 0 <= i < |table| && table[i].parent == parent && table[i].pid == x;
        assert table[..n][i] == table[i];
      }
    }
  }

  lemma {:induction false} ChildrenUnique(table: seq<Row>, parent: int)
    requires UniquePids(table)
    ensures Distinct(Children(table, parent))
  {
    if table != [] {
      var n := |table| - 1;
      ChildrenUnique(table[..n], parent);
      forall x | x in Children(table[..n], parent)
        ensures x != table[n].pid
      {
        ChildrenHold(table[..n], parent, x);
        var i :| 0 <= i < n && table[..n][i].parent == parent && table[..n][i].pid == x;
      }
      var front := Children(table[..n], parent);
      assert forall i :: 0 <= i < |front| ==> front[i] in front;
    }
  }

  // The loop's state: everything found, and what is still to be expanded.
  datatype Walk = Walk(members: set<int>, frontier: seq<int>)

  function Start(root: int): Walk {
    Walk({root}, [root])
  }

  function Expand(table: seq<Row>, w: Walk): Walk
    requires w.frontier != []
  {
    var n := |w.frontier| - 1;
    var children := Children(table, w.frontier[n]);
    Walk(w.members + (set x | x in children), w.frontier[..n] + children)
  }

  // The processes already expanded, and why nothing is found twice.
  ghost predicate WalkInv(table: seq<Row>, root: int, w: Walk, expanded: set<int>) {
    && AllDescend(RowEdges(table), root, w.members)
    && (forall x :: x in w.members <==> x in expanded || x in w.frontier)
    && (forall x :: x in w.frontier ==> x !in expanded)
    && Distinct(w.frontier)
    && (forall x, y :: x in expanded && RowEdge(table, x, y) ==> y in w.members)
    && (forall y :: y in w.members && y != root ==> exists x :: x in expanded && RowEdge(table, x, y))
  }

  lemma OneParent(table: seq<Row>, a: int, b: int, child: int)
    requires UniquePids(table) && RowEdge(table, a, child) && RowEdge(table, b, child)
    ensures a == b
  {}

  lemma ChildIsNew(table: seq<Row>, root: int, w: Walk, expanded: set<int>, parent: int, child: int)
    requires UniquePids(table) && WalkInv(table, root, w, expanded) && !OnCycle(RowEdges(table), root)
    requires parent in w.members && parent !in expanded && RowEdge(table, parent, child)
    ensures child !in w.members
  {
    assert RowEdges(table)(parent, child);
    if child in w.members && child != root {
      var x :| x in expanded && RowEdge(table, x, child);
      OneParent(table, x, parent, child);
    }
  }

  lemma ExpandKeepsDescent(table: seq<Row>, root: int, w: Walk)
    requires AllDescend(RowEdges(table), root, w.members) && w.frontier != []
    requires w.frontier[|w.frontier| - 1] in w.members
    ensures AllDescend(RowEdges(table), root, Expand(table, w).members)
  {
    var parent := w.frontier[|w.frontier| - 1];
    forall x | x in Children(table, parent)
      ensures Descends(RowEdges(table), root, x)
    {
      ChildrenHold(table, parent, x);
      ChildDescends(RowEdges(table), root, parent, x);
    }
  }

  lemma ExpandFrontier(table: seq<Row>, root: int, w: Walk, expanded: set<int>)
    requires UniquePids(table) && WalkInv(table, root, w, expanded) && !OnCycle(RowEdges(table), root)
    requires w.frontier != []
    ensures var next, parent := Expand(table, w), w.frontier[|w.frontier| - 1];
            && Distinct(next.frontier)
            && (forall x :: x in next.frontier ==> x !in expanded + {parent})
            && (forall x :: x in next.members <==> x in expanded + {parent} || x in next.frontier)
  {
    var n := |w.frontier| - 1;
    var parent := w.frontier[n];
    var children := Children(table, parent);
    ChildrenUnique(table, parent);
    assert w.frontier == w.frontier[..n] + [parent];
    assert forall x :: x in w.frontier <==> x in w.frontier[..n] || x == parent;
    assert parent in w.frontier && parent in w.members;
    forall x | x in children
      ensures x !in w.members
    {
      ChildrenHold(table, parent, x);
      ChildIsNew(table, root, w, expanded, parent, x);
    }
    FrontierIsUnique(w.frontier[..n], children, w.members);
  }

  lemma FrontierIsUnique(before: seq<int>, children: seq<int>, members: set<int>)
    requires Distinct(before) && Distinct(children)
    requires (forall x :: x in before ==> x in members) && (forall x :: x in children ==> x !in members)
    ensures Distinct(before + children)
  {
    forall i, j | 0 <= i < j < |before + children|
      ensures (before + children)[i] != (before + children)[j]
    {
      if i < |before| <= j {
        assert before[i] in before && children[j - |before|] in children;
      }
    }
  }

  lemma ExpandKeepsInv(table: seq<Row>, root: int, w: Walk, expanded: set<int>)
    requires UniquePids(table) && WalkInv(table, root, w, expanded) && !OnCycle(RowEdges(table), root)
    requires w.frontier != []
    ensures WalkInv(table, root, Expand(table, w), expanded + {w.frontier[|w.frontier| - 1]})
  {
    var parent := w.frontier[|w.frontier| - 1];
    assert parent in w.frontier;
    ExpandKeepsDescent(table, root, w);
    ExpandFrontier(table, root, w, expanded);
    forall y
      ensures y in Children(table, parent) <==> RowEdge(table, parent, y)
    {
      ChildrenHold(table, parent, y);
    }
  }

  // ---------- when the worklist ends ----------

  // One turn of the loop, and the process it expands.
  function Turn(table: seq<Row>, w: Walk): Walk {
    if w.frontier == [] then w else Expand(table, w)
  }

  function Popped(w: Walk): set<int> {
    if w.frontier == [] then {} else {w.frontier[|w.frontier| - 1]}
  }

  function After(table: seq<Row>, root: int, n: nat): Walk {
    if n == 0 then Start(root) else Turn(table, After(table, root, n - 1))
  }

  lemma TurnKeepsInv(table: seq<Row>, root: int, w: Walk, expanded: set<int>)
    requires UniquePids(table) && WalkInv(table, root, w, expanded) && !OnCycle(RowEdges(table), root)
    ensures WalkInv(table, root, Turn(table, w), expanded + Popped(w))
  {
    if w.frontier == [] {
      assert expanded + {} == expanded;
    } else {
      ExpandKeepsInv(table, root, w, expanded);
    }
  }

  lemma StartHasInv(table: seq<Row>, root: int)
    ensures WalkInv(table, root, Start(root), {})
  {
    RootDescends(RowEdges(table), root);
  }

  lemma {:induction false} AfterHasInv(table: seq<Row>, root: int, n: nat) returns (expanded: set<int>)
    requires UniquePids(table) && !OnCycle(RowEdges(table), root)
    ensures WalkInv(table, root, After(table, root, n), expanded)
  {
    if n == 0 {
      StartHasInv(table, root);
      expanded := {};
    } else {
      var before := AfterHasInv(table, root, n - 1);
      var w := After(table, root, n - 1);
      TurnKeepsInv(table, root, w, before);
      expanded := before + Popped(w);
    }
  }

  ghost function Known(table: seq<Row>, root: int): set<int> {
    {root} + set r | r in table :: r.pid
  }

  lemma MembersAreKnown(table: seq<Row>, root: int, w: Walk, expanded: set<int>)
    requires WalkInv(table, root, w, expanded)
    ensures w.members <= Known(table, root)
  {
    forall y | y in w.members && y != root
      ensures y in Known(table, root)
    {
      var x :| x in expanded && RowEdge(table, x, y);
      var i :| 0 <= i < |table| && table[i].parent == x && table[i].pid == y;
      assert table[i] in table;
    }
  }

  lemma TurnShrinks(table: seq<Row>, root: int, w: Walk, expanded: set<int>)
    requires WalkInv(table, root, w, expanded) && w.frontier != []
    ensures |Known(table, root) - (expanded + Popped(w))| < |Known(table, root) - expanded|
  {
    MembersAreKnown(table, root, w, expanded);
    var last := w.frontier[|w.frontier| - 1];
    assert last in w.frontier;
    Shrinks(Known(table, root), expanded, last);
  }

  lemma AfterTurn(table: seq<Row>, root: int, n: nat, w: Walk)
    requires w == After(table, root, n)
    ensures Turn(table, w) == After(table, root, n + 1)
  {}

  lemma {:induction false} EndsFrom(table: seq<Row>, root: int, n: nat, w: Walk, expanded: set<int>) returns (m: nat)
    requires UniquePids(table) && !OnCycle(RowEdges(table), root)
    requires w == After(table, root, n) && WalkInv(table, root, w, expanded)
    ensures n <= m && After(table, root, m).frontier == []
    decreases |Known(table, root) - expanded|
  {
    if w.frontier == [] {
      m := n;
    } else {
      TurnShrinks(table, root, w, expanded);
      TurnKeepsInv(table, root, w, expanded);
      AfterTurn(table, root, n, w);
      m := EndsFrom(table, root, n + 1, Turn(table, w), expanded + Popped(w));
    }
  }

  lemma WorklistEnds(table: seq<Row>, root: int) returns (m: nat)
    requires UniquePids(table) && !OnCycle(RowEdges(table), root)
    ensures After(table, root, m).frontier == []
  {
    StartHasInv(table, root);
    m := EndsFrom(table, root, 0, Start(root), {});
  }

  // ---------- when it does not ----------

  lemma ReturningChild(e: Relation, root: int, x: int) returns (c: int)
    requires OnCycle(e, root) && Descends(e, x, root)
    ensures e(x, c) && Descends(e, c, root)
  {
    var p: seq<int>;
    if x == root {
      var y :| Descends(e, root, y) && e(y, root);
      var q :| Joins(e, root, y, q);
      p := q + [root];
    } else {
      p :| Joins(e, x, root, p);
    }
    assert Joins(e, x, root, p) && |p| >= 2;
    c := p[1];
    assert e(p[0], p[0 + 1]);
    PathTail(e, p);
  }

  lemma PathTail(e: Relation, p: seq<int>)
    requires IsPath(e, p) && |p| >= 2
    ensures Descends(e, p[1], p[|p| - 1])
  {
    assert Joins(e, p[1], p[|p| - 1], p[1..]);
  }

  lemma TurnKeepsReturning(table: seq<Row>, root: int, w: Walk, x: int) returns (y: int)
    requires OnCycle(RowEdges(table), root) && x in w.frontier && Descends(RowEdges(table), x, root)
    ensures y in Turn(table, w).frontier && Descends(RowEdges(table), y, root)
  {
    var k := |w.frontier| - 1;
    if x == w.frontier[k] {
      y := ReturningChild(RowEdges(table), root, x);
      ChildrenHold(table, x, y);
    } else {
      assert w.frontier == w.frontier[..k] + [w.frontier[k]];
      y := x;
    }
  }

  lemma {:induction false} KeepsAReturningProcess(table: seq<Row>, root: int, n: nat) returns (x: int)
    requires OnCycle(RowEdges(table), root)
    ensures x in After(table, root, n).frontier && Descends(RowEdges(table), x, root)
  {
    if n == 0 {
      x := root;
      RootDescends(RowEdges(table), root);
    } else {
      var before := KeepsAReturningProcess(table, root, n - 1);
      x := TurnKeepsReturning(table, root, After(table, root, n - 1), before);
    }
  }

  /** The worklist loop ends exactly when the root is not its own descendant; otherwise it
      runs forever. */
  lemma WorklistEndsIff(table: seq<Row>, root: int)
    requires UniquePids(table)
    ensures (exists n :: After(table, root, n).frontier == []) <==> !OnCycle(RowEdges(table), root)
  {
    if OnCycle(RowEdges(table), root) {
      forall n: nat
        ensures After(table, root, n).frontier != []
      {
        var x := KeepsAReturningProcess(table, root, n);
      }
    } else {
      var m := WorklistEnds(table, root);
    }
  }

  /** A root listed as its own parent is enough: then the loop never ends. */
  lemma SelfParentNeverEnds(rss: int)
    ensures UniquePids([Row(0, 0, rss)]) && forall n: nat :: After([Row(0, 0, rss)], 0, n).frontier != []
  {
    var table := [Row(0, 0, rss)];
    assert table[0].parent == 0 && table[0].pid == 0;
    assert RowEdges(table)(0, 0);
    RootDescends(RowEdges(table), 0);
    WorklistEndsIff(table, 0);
  }

  lemma EndedHoldsAll(table: seq<Row>, root: int, n: nat)
    requires UniquePids(table) && !OnCycle(RowEdges(table), root) && After(table, root, n).frontier == []
    ensures forall x :: x in After(table, root, n).members <==> Descends(RowEdges(table), root, x)
  {
    var expanded := AfterHasInv(table, root, n);
    var w := After(table, root, n);
    assert Closed(RowEdges(table), w.members);
    ClosedIsAll(RowEdges(table), root, w.members);
  }

  method Members(table: seq<Row>, root: int) returns (members: set<int>)
    requires UniquePids(table) && !OnCycle(RowEdges(table), root)
    ensures forall x :: x in members <==> Descends(RowEdges(table), root, x)
  {
    members := {root};
    var frontier := [root];
    ghost var n := 0;
    ghost var m := WorklistEnds(table, root);
    while frontier != []
      invariant n <= m && Walk(members, frontier) == After(table, root, n)
      decreases m - n
    {
      ghost var w := Walk(members, frontier);
      if n == m { EndedStaysEnded(table, root, m, n); }
      AfterTurn(table, root, n, w);
      var parent := frontier[|frontier| - 1];
      frontier := frontier[..|frontier| - 1];
      var children := Children(table, parent);
      members := members + set x | x in children;
      frontier := frontier + children;
      assert Walk(members, frontier) == Turn(table, w);
      n := n + 1;
    }
    EndedHoldsAll(table, root, n);
  }

  lemma {:induction false} EndedStaysEnded(table: seq<Row>, root: int, m: nat, n: nat)
    requires m <= n && After(table, root, m).frontier == []
    ensures After(table, root, n) == After(table, root, m)
  {
    if m < n {
      EndedStaysEnded(table, root, m, n - 1);
      AfterTurn(table, root, n - 1, After(table, root, n - 1));
    }
  }

  predicate HasPid(rows: seq<Row>, pid: int) {
    exists i :: 0 <= i < |rows| && rows[i].pid == pid
  }

  datatype RssError = ProcessTreeUnavailable

  method WorklistRss(rows: seq<Row>, root: int) returns (r: Result<int, RssError>, ghost members: set<int>)
    requires !OnCycle(RowEdges(TableOf(rows)), root)
    ensures forall x :: x in members <==> Descends(RowEdges(TableOf(rows)), root, x)
    ensures r.Success? <==> HasPid(TableOf(rows), root)
    ensures r.Success? <==> exists row :: row in rows && row.pid == root
    ensures r.Success? ==> r.value == RssOf(TableOf(rows), members)
  {
    var table := TableOf(rows);
    TableIsUnique(rows);
    TableHasPid(rows, root);
    var found := Members(table, root);
    members := found;
    if !HasPid(table, root) { return Failure(ProcessTreeUnavailable), found; }
    var total := TotalOf(table, found);
    TotalIsSum(table, found);
    return Success(total), found;
  }

  /** On a listing with unique pids that contains the root, and whose root is not its own
      descendant, both computations give the same processes and the same total. */
  method BothAgree(rows: seq<Row>, root: int) returns (fixpoint: int, worklist: Result<int, RssError>)
    requires UniquePids(rows) && !OnCycle(RowEdges(rows), root)
    ensures worklist.Success? <==> HasPid(rows, root)
    ensures worklist.Success? ==> worklist.value == fixpoint
  {
    UniqueRowsAreTheTable(rows);
    ghost var descendants, members;
    fixpoint, descendants := ProcessTreeRss(rows, root);
    worklist, members := WorklistRss(rows, root);
    assert TableOf(rows) == rows;
    assert forall x :: x in descendants <==> x in members;
    assert descendants == members;
  }
}
