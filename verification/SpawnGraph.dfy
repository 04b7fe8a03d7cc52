/** The persisted thread-spawn topology: an edge table keyed by child thread,
three mutating operations, and two listings.

A listing of descendants is the recursive query
`subtree(child, depth) ... UNION ALL ... ORDER BY depth, child`: every round joins the rows of
the previous round with the edge table, and nothing removes repeated rows.
*/
module SpawnGraph {
  import opened Wrappers
  import opened Sorting

  type ThreadId = nat

  datatype Status = Open | Closed

  datatype Edge = Edge(parent: ThreadId, status: Status)

  datatype CloseOutcome = NewlyClosed | AlreadyExactClosed | MismatchOrMissing

  /** The child is the primary key, so a child has at most one parent. */
  type Edges = map<ThreadId, Edge>

  // ----- Operations on the edge table

  function Upsert(m: Edges, parent: ThreadId, child: ThreadId, status: Status): Edges {
    m[child := Edge(parent, status)]
  }

  function SetStatus(m: Edges, child: ThreadId, status: Status): Edges {
    if child in m then m[child := m[child].(status := status)] else m
  }

  function CloseResult(m: Edges, parent: ThreadId, child: ThreadId): CloseOutcome {
    if child !in m || m[child].parent != parent then MismatchOrMissing
    else if m[child].status == Open then NewlyClosed
    else AlreadyExactClosed
  }

  function Close(m: Edges, parent: ThreadId, child: ThreadId): Edges {
    if CloseResult(m, parent, child) == NewlyClosed then m[child := Edge(parent, Closed)] else m
  }

  // ----- Reachability

  predicate Matches(e: Edge, filter: Option<Status>) {
    filter.None? || e.status == filter.value
  }

  predicate MatchingEdge(m: Edges, filter: Option<Status>, parent: ThreadId, child: ThreadId) {
    child in m && m[child].parent == parent && Matches(m[child], filter)
  }

  /** A chain of spawn edges, ancestor first, every edge of which matches the filter. */
  ghost predicate Chain(m: Edges, filter: Option<Status>, path: seq<ThreadId>) {
    && |path| > 0
    && forall i :: 0 < i < |path| ==>
         path[i] in m && m[path[i]].parent == path[i-1] && (filter == None || filter == Some(m[path[i]].status))
  }

  ghost predicate ChainBetween(m: Edges, filter: Option<Status>, root: ThreadId, child: ThreadId, path: seq<ThreadId>) {
    Chain(m, filter, path) && path[0] == root && path[|path|-1] == child
  }

  /** `child` is reached from `root` by exactly `depth` matching edges. */
  ghost predicate AtDepth(m: Edges, root: ThreadId, filter: Option<Status>, child: ThreadId, depth: nat)
    decreases depth
  {
    if depth == 0 then child == root
    else child in m && Matches(m[child], filter) && AtDepth(m, root, filter, m[child].parent, depth - 1)
  }

  ghost predicate Descends(m: Edges, root: ThreadId, filter: Option<Status>, child: ThreadId) {
    exists depth: nat :: depth > 0 && AtDepth(m, root, filter, child, depth)
  }

  /** `child` is reached from `root` by at least one and at most `depth` matching edges. */
  ghost predicate Within(m: Edges, root: ThreadId, filter: Option<Status>, child: ThreadId, depth: nat)
    decreases depth
  {
    depth > 0 && (AtDepth(m, root, filter, child, depth) || Within(m, root, filter, child, depth - 1))
  }

  lemma {:induction false} WithinGivesDepth(
    m: Edges, root: ThreadId, filter: Option<Status>, child: ThreadId, depth: nat) returns (d: nat)
    requires Within(m, root, filter, child, depth)
    ensures 0 < d <= depth && AtDepth(m, root, filter, child, d)
    decreases depth
  {
    if AtDepth(m, root, filter, child, depth) {
      d := depth;
    } else {
      d := WithinGivesDepth(m, root, filter, child, depth - 1);
    }
  }

  lemma {:induction false} DepthIsWithin(
    m: Edges, root: ThreadId, filter: Option<Status>, child: ThreadId, d: nat, depth: nat)
    requires 0 < d <= depth && AtDepth(m, root, filter, child, d)
    ensures Within(m, root, filter, child, depth)
    decreases depth
  {
    if d < depth { DepthIsWithin(m, root, filter, child, d, depth - 1); }
  }

  lemma {:induction false} DepthIsChainLength(
    m: Edges, root: ThreadId, filter: Option<Status>, child: ThreadId, depth: nat)
    ensures AtDepth(m, root, filter, child, depth)
       <==> exists path :: ChainBetween(m, filter, root, child, path) && |path| == depth + 1
    decreases depth
  {
    if depth == 0 {
      if child == root {
        assert ChainBetween(m, filter, root, child, [root]);
      }
    } else if child in m && Matches(m[child], filter) {
      var parent := m[child].parent;
      DepthIsChainLength(m, root, filter, parent, depth - 1);
      if AtDepth(m, root, filter, parent, depth - 1) {
        var path :| ChainBetween(m, filter, root, parent, path) && |path| == depth;
        assert ChainBetween(m, filter, root, child, path + [child]);
      }
      forall path | ChainBetween(m, filter, root, child, path) && |path| == depth + 1
        ensures AtDepth(m, root, filter, parent, depth - 1)
      {
        assert MatchingEdge(m, filter, path[depth-1], path[depth]);
        assert ChainBetween(m, filter, root, parent, path[..depth]);
      }
    } else {
      assert forall path :: Chain(m, filter, path) && |path| == depth + 1 ==>
        MatchingEdge(m, filter, path[depth-1], path[depth]);
    }
  }

  /** Two ancestors of one thread lie on one line: the nearer one is below the farther one. */
  lemma {:induction false} AncestorsAreLinear(
    m: Edges, filter: Option<Status>, far: ThreadId, near: ThreadId, child: ThreadId, d: nat, e: nat)
    requires AtDepth(m, far, filter, child, d) && AtDepth(m, near, filter, child, e) && e <= d
    ensures AtDepth(m, far, filter, near, d - e)
    decreases e
  {
    if e > 0 {
      AncestorsAreLinear(m, filter, far, near, m[child].parent, d - 1, e - 1);
    }
  }

  lemma {:induction false} DepthsAdd(
    m: Edges, filter: Option<Status>, root: ThreadId, mid: ThreadId, child: ThreadId, d: nat, e: nat)
    requires AtDepth(m, root, filter, mid, d) && AtDepth(m, mid, filter, child, e)
    ensures AtDepth(m, root, filter, child, d + e)
    decreases e
  {
    if e > 0 {
      DepthsAdd(m, filter, root, mid, m[child].parent, d, e - 1);
    }
  }

  lemma DepthIsUnique(m: Edges, root: ThreadId, filter: Option<Status>, child: ThreadId, d: nat, e: nat)
    requires !Descends(m, root, filter, root)
    requires AtDepth(m, root, filter, child, d) && AtDepth(m, root, filter, child, e)
    ensures d == e
  {
    if e < d {
      AncestorsAreLinear(m, filter, root, root, child, d, e);
    } else if d < e {
      AncestorsAreLinear(m, filter, root, root, child, e, d);
    }
  }

  /** Below a root that is not its own descendant, a thread is reached along one path only. */
  lemma {:induction false} PathIsUnique(
    m: Edges, root: ThreadId, filter: Option<Status>, child: ThreadId, p: seq<ThreadId>, q: seq<ThreadId>)
    requires !Descends(m, root, filter, root)
    requires ChainBetween(m, filter, root, child, p) && ChainBetween(m, filter, root, child, q)
    ensures p == q
    decreases |p|
  {
    DepthIsChainLength(m, root, filter, child, |p| - 1);
    DepthIsChainLength(m, root, filter, child, |q| - 1);
    DepthIsUnique(m, root, filter, child, |p| - 1, |q| - 1);
    if |p| > 1 {
      var k := |p| - 1;
      assert MatchingEdge(m, filter, p[k-1], p[k]) && MatchingEdge(m, filter, q[k-1], q[k]);
      PathIsUnique(m, root, filter, p[k-1], p[..k], q[..k]);
      assert p == p[..k] + [child] && q == q[..k] + [child];
    }
  }

  /** Every cycle that can be reached from the root runs through the root. */
  lemma {:induction false} ReachableCyclePassesRoot(
    m: Edges, root: ThreadId, filter: Option<Status>, c: ThreadId, depth: nat, period: nat)
    requires AtDepth(m, root, filter, c, depth)
    requires period > 0 && AtDepth(m, c, filter, c, period)
    ensures Descends(m, root, filter, root)
    ensures exists d: nat, e: nat :: d + e == period && AtDepth(m, c, filter, root, e) && AtDepth(m, root, filter, c, d)
    decreases depth
  {
    if depth <= period {
      AncestorsAreLinear(m, filter, c, root, c, period, depth);
      DepthsAdd(m, filter, root, c, root, depth, period - depth);
      assert depth + (period - depth) == period;
    } else {
      AncestorsAreLinear(m, filter, root, c, c, depth, period);
      ReachableCyclePassesRoot(m, root, filter, c, depth - period, period);
    }
  }

  // ----- The recursive query

  function Children(m: Edges, parent: ThreadId, filter: Option<Status>): (r: seq<ThreadId>)
    ensures forall c :: c in r <==> MatchingEdge(m, filter, parent, c)
    ensures Sorted(r, NatLe) && NoDuplicates(r)
  {
    SortSet((set c | c in m && MatchingEdge(m, filter, parent, c)), NatLe)
  }

  /** One round of the query: each row of the last round joined with the edges out of it. */
  function NextRows(m: Edges, filter: Option<Status>, rows: seq<ThreadId>): (r: seq<ThreadId>)
    ensures forall c :: c in r <==> c in m && m[c].parent in rows && Matches(m[c], filter)
  {
    if rows == [] then []
    else Children(m, rows[0], filter) + NextRows(m, filter, rows[1..])
  }

  /** The rows of round `depth`; round 0 stands for the root itself, which is not a row. */
  function Rows(m: Edges, root: ThreadId, filter: Option<Status>, depth: nat): (r: seq<ThreadId>) {
    if depth == 0 then [root] else NextRows(m, filter, Rows(m, root, filter, depth - 1))
  }

  /** `UNION ALL` keeps repeats, but one parent per child means a round never has any. */
  lemma {:induction false} NextRowsNoDuplicates(m: Edges, filter: Option<Status>, rows: seq<ThreadId>)
    requires NoDuplicates(rows)
    ensures NoDuplicates(NextRows(m, filter, rows))
  {
    if rows != [] {
      NextRowsNoDuplicates(m, filter, rows[1..]);
      var first, rest := Children(m, rows[0], filter), NextRows(m, filter, rows[1..]);
      forall i, j | 0 <= i < |first| && 0 <= j < |rest| ensures first[i] != rest[j] {
        assert first[i] in first && rest[j] in rest;
      }
    }
  }

  lemma {:induction false} RowsAreDepths(m: Edges, root: ThreadId, filter: Option<Status>, depth: nat)
    ensures forall c :: c in Rows(m, root, filter, depth) <==> AtDepth(m, root, filter, c, depth)
    ensures NoDuplicates(Rows(m, root, filter, depth))
  {
    if depth > 0 {
      RowsAreDepths(m, root, filter, depth - 1);
      NextRowsNoDuplicates(m, filter, Rows(m, root, filter, depth - 1));
    }
  }

  ghost function Line(m: Edges, root: ThreadId, filter: Option<Status>, child: ThreadId, depth: nat): (r: set<ThreadId>)
    requires AtDepth(m, root, filter, child, depth)
    ensures r <= m.Keys
    decreases depth
  {
    if depth == 0 then {} else {child} + Line(m, root, filter, m[child].parent, depth - 1)
  }

  lemma {:induction false} DepthBounded(m: Edges, root: ThreadId, filter: Option<Status>, child: ThreadId, depth: nat)
    requires !Descends(m, root, filter, root)
    requires AtDepth(m, root, filter, child, depth)
    ensures forall x :: x in Line(m, root, filter, child, depth) ==> Within(m, root, filter, x, depth)
    ensures |Line(m, root, filter, child, depth)| == depth
    ensures depth <= |m|
    decreases depth
  {
    if depth > 0 {
      var parent := m[child].parent;
      var above := Line(m, root, filter, parent, depth - 1);
      DepthBounded(m, root, filter, parent, depth - 1);
      assert child !in above by {
        if child in above {
          var d := WithinGivesDepth(m, root, filter, child, depth - 1);
          DepthIsUnique(m, root, filter, child, d, depth);
        }
      }
    }
    SubsetSize(Line(m, root, filter, child, depth), m.Keys);
  }

  lemma {:induction false} SubsetSize<T>(a: set<T>, b: set<T>)
    requires a <= b
    ensures |a| <= |b|
  {
    if a != {} {
      var x :| x in a;
      SubsetSize(a - {x}, b - {x});
    }
  }

  /** The query has a row in every round, and so never ends, exactly when the root is its own descendant. */
  lemma QueryEndsExactlyWhenRootIsNotItsOwnDescendant(m: Edges, root: ThreadId, filter: Option<Status>)
    ensures (forall depth: nat :: Rows(m, root, filter, depth) != []) <==> Descends(m, root, filter, root)
    ensures !Descends(m, root, filter, root) ==> Rows(m, root, filter, |m| + 1) == []
  {
    if Descends(m, root, filter, root) {
      var period :| period > 0 && AtDepth(m, root, filter, root, period);
      forall depth: nat ensures Rows(m, root, filter, depth) != [] {
        RowsNeverEmpty(m, root, filter, period, depth);
      }
    } else {
      RowsAreDepths(m, root, filter, |m| + 1);
      var rows := Rows(m, root, filter, |m| + 1);
      if rows != [] {
        assert rows[0] in rows;
        DepthBounded(m, root, filter, rows[0], |m| + 1);
      }
      assert Rows(m, root, filter, |m| + 1) == [];
    }
  }

  /** A thread recorded as its own parent: listing its descendants never ends. */
  lemma OwnParentIsListedForever(t: ThreadId)
    ensures forall depth: nat :: Rows(map[t := Edge(t, Open)], t, None, depth) != []
  {
    var m := map[t := Edge(t, Open)];
    assert AtDepth(m, t, None, m[t].parent, 0);
    assert AtDepth(m, t, None, t, 1);
    QueryEndsExactlyWhenRootIsNotItsOwnDescendant(m, t, None);
  }

  /** Going round a cycle through the root, there is a thread at every depth. */
  lemma {:induction false} ThreadAtEveryDepth(
    m: Edges, root: ThreadId, filter: Option<Status>, period: nat, depth: nat) returns (c: ThreadId)
    requires period > 0 && AtDepth(m, root, filter, root, period)
    ensures AtDepth(m, root, filter, c, depth)
    decreases depth
  {
    if depth > period {
      c := ThreadAtEveryDepth(m, root, filter, period, depth - period);
      DepthsAdd(m, filter, root, root, c, period, depth - period);
    } else {
      c := Ancestor(m, root, filter, root, period, period - depth);
      AncestorsAreLinear(m, filter, root, c, root, period, period - depth);
    }
  }

  lemma RowsNeverEmpty(m: Edges, root: ThreadId, filter: Option<Status>, period: nat, depth: nat)
    requires period > 0 && AtDepth(m, root, filter, root, period)
    ensures Rows(m, root, filter, depth) != []
  {
    var c := ThreadAtEveryDepth(m, root, filter, period, depth);
    RowsAreDepths(m, root, filter, depth);
    assert c in Rows(m, root, filter, depth);
  }

  ghost function Ancestor(
    m: Edges, root: ThreadId, filter: Option<Status>, child: ThreadId, depth: nat, up: nat): (r: ThreadId)
    requires AtDepth(m, root, filter, child, depth) && up <= depth
    ensures AtDepth(m, r, filter, child, up)
    decreases up
  {
    if up == 0 then child else Ancestor(m, root, filter, m[child].parent, depth - 1, up - 1)
  }

  // ----- What a listing of descendants is

  ghost predicate Before(m: Edges, root: ThreadId, filter: Option<Status>, a: ThreadId, b: ThreadId) {
    exists d: nat, e: nat ::
      && AtDepth(m, root, filter, a, d) && AtDepth(m, root, filter, b, e)
      && (d < e || (d == e && a < b))
  }

  /** Exactly the descendants, by depth and then by thread id, each once. */
  ghost predicate IsListing(m: Edges, root: ThreadId, filter: Option<Status>, out: seq<ThreadId>) {
    && (forall c :: c in out <==> Descends(m, root, filter, c))
    && (forall i, j :: 0 <= i < j < |out| ==> Before(m, root, filter, out[i], out[j]))
  }

  lemma BeforeIsAsymmetric(m: Edges, root: ThreadId, filter: Option<Status>, a: ThreadId, b: ThreadId)
    requires !Descends(m, root, filter, root)
    requires Before(m, root, filter, a, b)
    ensures !Before(m, root, filter, b, a)
  {
    if Before(m, root, filter, b, a) {
      var d, e :| AtDepth(m, root, filter, a, d) && AtDepth(m, root, filter, b, e) && (d < e || (d == e && a < b));
      var e', d' :| AtDepth(m, root, filter, b, e') && AtDepth(m, root, filter, a, d')
        && (e' < d' || (e' == d' && b < a));
      DepthIsUnique(m, root, filter, a, d, d');
      DepthIsUnique(m, root, filter, b, e, e');
    }
  }

  lemma ListingIsUnique(m: Edges, root: ThreadId, filter: Option<Status>, out: seq<ThreadId>, out': seq<ThreadId>)
    requires !Descends(m, root, filter, root)
    requires IsListing(m, root, filter, out) && IsListing(m, root, filter, out')
    ensures out == out' && NoDuplicates(out)
  {
    forall a, b | Before(m, root, filter, a, b) ensures !Before(m, root, filter, b, a) {
      BeforeIsAsymmetric(m, root, filter, a, b);
    }
    StrictListUnique(out, out', (a, b) => Before(m, root, filter, a, b));
  }

  lemma {:induction false} FilteredDepth(m: Edges, root: ThreadId, filter: Option<Status>, c: ThreadId, d: nat)
    requires AtDepth(m, root, filter, c, d)
    ensures AtDepth(m, root, None, c, d)
    decreases d
  {
    if d > 0 { FilteredDepth(m, root, filter, m[c].parent, d - 1); }
  }

  /** A filtered listing keeps the order of the unfiltered one and only leaves threads out. */
  lemma FilteredListingIsSublist(
    m: Edges, root: ThreadId, filter: Option<Status>, all: seq<ThreadId>, some: seq<ThreadId>)
    requires !Descends(m, root, None, root)
    requires IsListing(m, root, None, all) && IsListing(m, root, filter, some)
    ensures some == Filter(all, c => Descends(m, root, filter, c))
  {
    var keep := c => Descends(m, root, filter, c);
    var kept := Filter(all, keep);
    forall c | Descends(m, root, filter, c) ensures Descends(m, root, None, c) {
      var d: nat :| d > 0 && AtDepth(m, root, filter, c, d);
      FilteredDepth(m, root, filter, c, d);
    }
    FilterKeepsPairs(all, keep, (a, b) => Before(m, root, None, a, b));
    forall i, j | 0 <= i < j < |kept| ensures Before(m, root, filter, kept[i], kept[j]) {
      assert kept[i] in kept && kept[j] in kept;
      BeforeUnderFilter(m, root, filter, kept[i], kept[j]);
    }
    ListingIsUnique(m, root, filter, kept, some);
  }

  lemma BeforeUnderFilter(m: Edges, root: ThreadId, filter: Option<Status>, a: ThreadId, b: ThreadId)
    requires !Descends(m, root, None, root)
    requires Before(m, root, None, a, b)
    requires Descends(m, root, filter, a) && Descends(m, root, filter, b)
    ensures Before(m, root, filter, a, b)
  {
    var d: nat :| d > 0 && AtDepth(m, root, filter, a, d);
    var e: nat :| e > 0 && AtDepth(m, root, filter, b, e);
    FilteredDepth(m, root, filter, a, d);
    FilteredDepth(m, root, filter, b, e);
    var d', e' :| AtDepth(m, root, None, a, d') && AtDepth(m, root, None, b, e') && (d' < e' || (d' == e' && a < b));
    DepthIsUnique(m, root, None, a, d, d');
    DepthIsUnique(m, root, None, b, e, e');
  }

  // ----- Closing an edge

  lemma {:induction false} CloseAddsNoPath(
    m: Edges, parent: ThreadId, child: ThreadId, root: ThreadId, t: ThreadId, d: nat)
    requires AtDepth(Close(m, parent, child), root, Some(Open), t, d)
    ensures AtDepth(m, root, Some(Open), t, d)
    decreases d
  {
    if d > 0 { CloseAddsNoPath(m, parent, child, root, m[t].parent, d - 1); }
  }

  /** `child` is one of the `d` threads met going up from `t`, starting with `t` itself. */
  ghost predicate OnPath(m: Edges, child: ThreadId, t: ThreadId, d: nat)
    decreases d
  {
    d > 0 && (t == child || (t in m && OnPath(m, child, m[t].parent, d - 1)))
  }

  /** After a new close, an open path survives exactly when the closed child is not on it below the root. */
  lemma {:induction false} CloseCutsPathsThroughChild(
    m: Edges, parent: ThreadId, child: ThreadId, root: ThreadId, t: ThreadId, d: nat)
    requires CloseResult(m, parent, child) == NewlyClosed
    requires AtDepth(m, root, Some(Open), t, d)
    ensures AtDepth(Close(m, parent, child), root, Some(Open), t, d) <==> !OnPath(m, child, t, d)
    decreases d
  {
    if d > 0 { CloseCutsPathsThroughChild(m, parent, child, root, m[t].parent, d - 1); }
  }

  lemma {:induction false} OnPathIsBelow(
    m: Edges, child: ThreadId, root: ThreadId, t: ThreadId, d: nat) returns (e: nat)
    requires AtDepth(m, root, Some(Open), t, d) && OnPath(m, child, t, d)
    ensures e < d && AtDepth(m, child, Some(Open), t, e)
    decreases d
  {
    if t == child {
      e := 0;
    } else {
      var e' := OnPathIsBelow(m, child, root, m[t].parent, d - 1);
      e := e' + 1;
    }
  }

  lemma {:induction false} BelowIsOnPath(m: Edges, child: ThreadId, t: ThreadId, d: nat, e: nat)
    requires AtDepth(m, child, Some(Open), t, e) && e < d
    ensures OnPath(m, child, t, d)
    decreases e
  {
    if e > 0 { BelowIsOnPath(m, child, m[t].parent, d - 1, e - 1); }
  }

  /** A new close takes from a root's open descendants exactly the child and what was reached through it. */
  lemma CloseRemovesExactlyTheSubtree(m: Edges, parent: ThreadId, child: ThreadId, root: ThreadId, t: ThreadId)
    requires CloseResult(m, parent, child) == NewlyClosed
    requires !Descends(m, root, Some(Open), root)
    ensures Descends(Close(m, parent, child), root, Some(Open), t)
       <==> && Descends(m, root, Some(Open), t)
            && !(Descends(m, root, Some(Open), child) && (t == child || Descends(m, child, Some(Open), t)))
  {
    var m' := Close(m, parent, child);
    if Descends(m', root, Some(Open), t) {
      var d: nat :| d > 0 && AtDepth(m', root, Some(Open), t, d);
      CloseAddsNoPath(m, parent, child, root, t, d);
    }
    if Descends(m, root, Some(Open), t) {
      var d: nat :| d > 0 && AtDepth(m, root, Some(Open), t, d);
      CloseCutsPathsThroughChild(m, parent, child, root, t, d);
      forall d': nat | AtDepth(m', root, Some(Open), t, d') ensures d' == d {
        CloseAddsNoPath(m, parent, child, root, t, d');
        DepthIsUnique(m, root, Some(Open), t, d, d');
      }
      OnPathIffBelowChild(m, child, root, t, d);
    }
  }

  lemma OnPathIffBelowChild(m: Edges, child: ThreadId, root: ThreadId, t: ThreadId, d: nat)
    requires !Descends(m, root, Some(Open), root)
    requires d > 0 && AtDepth(m, root, Some(Open), t, d)
    ensures OnPath(m, child, t, d)
       <==> Descends(m, root, Some(Open), child) && (t == child || Descends(m, child, Some(Open), t))
  {
    if OnPath(m, child, t, d) {
      var e := OnPathIsBelow(m, child, root, t, d);
      AncestorsAreLinear(m, Some(Open), root, child, t, d, e);
    }
    if Descends(m, root, Some(Open), child) && (t == child || Descends(m, child, Some(Open), t)) {
      var dc: nat :| dc > 0 && AtDepth(m, root, Some(Open), child, dc);
      assert t == child ==> AtDepth(m, child, Some(Open), t, 0);
      var e: nat :| AtDepth(m, child, Some(Open), t, e);
      DepthsAdd(m, Some(Open), root, child, t, dc, e);
      DepthIsUnique(m, root, Some(Open), t, d, dc + e);
      BelowIsOnPath(m, child, t, d, e);
    }
  }

  // ----- Runs of the three mutating operations

  datatype Operation =
    | UpsertEdge(parent: ThreadId, child: ThreadId, status: Status)
    | SetEdgeStatus(child: ThreadId, status: Status)
    | CloseEdge(parent: ThreadId, child: ThreadId)

  function Apply(m: Edges, op: Operation): Edges {
    match op
    case UpsertEdge(p, c, s) => Upsert(m, p, c, s)
    case SetEdgeStatus(c, s) => SetStatus(m, c, s)
    case CloseEdge(p, c) => Close(m, p, c)
  }

  /** The table after the first `n` operations. */
  function After(m: Edges, ops: seq<Operation>, n: nat): Edges
    requires n <= |ops|
  {
    if n == 0 then m else Apply(After(m, ops, n - 1), ops[n-1])
  }

  ghost predicate Reopens(op: Operation, child: ThreadId) {
    op.child == child && !op.CloseEdge? && op.status == Open
  }

  ghost predicate NewlyClosesAt(m: Edges, ops: seq<Operation>, i: nat, parent: ThreadId, child: ThreadId) {
    i < |ops| && ops[i] == CloseEdge(parent, child) && CloseResult(After(m, ops, i), parent, child) == NewlyClosed
  }

  lemma {:induction false} NotOpenUntilReopened(m: Edges, ops: seq<Operation>, child: ThreadId, lo: nat, hi: nat)
    requires lo <= hi <= |ops|
    requires child in After(m, ops, lo) ==> After(m, ops, lo)[child].status != Open
    requires forall k :: lo <= k < hi ==> !Reopens(ops[k], child)
    ensures child in After(m, ops, hi) ==> After(m, ops, hi)[child].status != Open
    decreases hi
  {
    if lo < hi { NotOpenUntilReopened(m, ops, child, lo, hi - 1); }
  }

  /** Between two new closes of one edge there is always an operation that opened it again. */
  lemma NewClosesAreSeparatedByReopening(
    m: Edges, ops: seq<Operation>, parent: ThreadId, child: ThreadId, i: nat, j: nat)
    requires i < j && NewlyClosesAt(m, ops, i, parent, child) && NewlyClosesAt(m, ops, j, parent, child)
    ensures exists k :: i < k < j && Reopens(ops[k], child)
  {
    if forall k :: i < k < j ==> !Reopens(ops[k], child) {
      assert After(m, ops, i + 1) == Close(After(m, ops, i), parent, child);
      NotOpenUntilReopened(m, ops, child, i + 1, j);
    }
  }

  // ----- The store

  class AgentGraphStore {
    var edges: Edges

    /** A store over the edges already recorded. */
    constructor (recorded: Edges)
      ensures edges == recorded
    {
      edges := recorded;
    }

    method UpsertThreadSpawnEdge(parent: ThreadId, child: ThreadId, status: Status)
      modifies this
      ensures edges == Apply(old(edges), UpsertEdge(parent, child, status))
      ensures edges[child] == Edge(parent, status) && edges - {child} == old(edges) - {child}
    {
      edges := edges[child := Edge(parent, status)];
    }

    method SetThreadSpawnEdgeStatus(child: ThreadId, status: Status)
      modifies this
      ensures edges == Apply(old(edges), SetEdgeStatus(child, status))
      ensures edges.Keys == old(edges).Keys && edges - {child} == old(edges) - {child}
      ensures child in edges ==> edges[child] == Edge(old(edges)[child].parent, status)
    {
      if child in edges {
        edges := edges[child := edges[child].(status := status)];
      }
    }

    /** A conditional update, then a read that tells the two unsuccessful cases apart. */
    method CloseOpenThreadSpawnEdge(parent: ThreadId, child: ThreadId) returns (outcome: CloseOutcome)
      modifies this
      ensures edges == Apply(old(edges), CloseEdge(parent, child))
      ensures outcome == CloseResult(old(edges), parent, child)
      ensures outcome == NewlyClosed <==> old(child in edges && edges[child] == Edge(parent, Open))
      ensures outcome == AlreadyExactClosed <==> old(child in edges && edges[child] == Edge(parent, Closed))
      ensures outcome != NewlyClosed ==> edges == old(edges)
      ensures edges - {child} == old(edges) - {child}
      ensures outcome != MismatchOrMissing ==> child in edges && edges[child] == Edge(parent, Closed)
    {
      var updated := child in edges && edges[child].parent == parent && edges[child].status == Open;
      if updated {
        edges := edges[child := edges[child].(status := Closed)];
        return NewlyClosed;
      }
      if child in edges && edges[child].status == Closed && edges[child].parent == parent {
        return AlreadyExactClosed;
      }
      return MismatchOrMissing;
    }

    method ListThreadSpawnChildren(parent: ThreadId, filter: Option<Status>) returns (out: seq<ThreadId>)
      ensures forall c :: c in out <==> MatchingEdge(edges, filter, parent, c)
      ensures Sorted(out, NatLe) && NoDuplicates(out)
    {
      out := Children(edges, parent, filter);
    }

    /** The recursive query: rounds of rows until one is empty, each round ordered by thread id. `None`
        stands for the query that does not end: the root is its own descendant. */
    method ListThreadSpawnDescendants(root: ThreadId, filter: Option<Status>) returns (r: Option<seq<ThreadId>>)
      ensures r.None? <==> Descends(edges, root, filter, root)
      ensures r.Some? ==> IsListing(edges, root, filter, r.value)
    {
      var rows, out, depth := QueryRounds(edges, root, filter, |edges| + 1);
      QueryResult(edges, root, filter, rows, out, depth);
      return if rows == [] then Some(out) else None;
    }
  }

  /** Rounds until one has no rows, but at most `limit`. */
  method QueryRounds(m: Edges, root: ThreadId, filter: Option<Status>, limit: nat)
    returns (rows: seq<ThreadId>, out: seq<ThreadId>, depth: nat)
    ensures rows == Rows(m, root, filter, depth) && ListedTo(m, root, filter, out, depth)
    ensures rows == [] || depth == limit
  {
    rows, out, depth := [root], [], 0;
    NothingListed(m, root, filter);
    while rows != [] && depth < limit
      invariant depth <= limit
      invariant AtRound(m, root, filter, rows, out, depth)
      decreases limit - depth
    {
      rows, out := QueryRound(m, root, filter, rows, out, depth);
      depth := depth + 1;
    }
  }

  ghost predicate AtRound(
    m: Edges, root: ThreadId, filter: Option<Status>, rows: seq<ThreadId>, out: seq<ThreadId>, depth: nat) {
    rows == Rows(m, root, filter, depth) && ListedTo(m, root, filter, out, depth)
  }

  lemma NothingListed(m: Edges, root: ThreadId, filter: Option<Status>)
    ensures AtRound(m, root, filter, [root], [], 0)
  {
  }

  /** One more round: its rows, listed in order of thread id. */
  method QueryRound(
    m: Edges, root: ThreadId, filter: Option<Status>, rows: seq<ThreadId>, out: seq<ThreadId>, ghost depth: nat)
    returns (next: seq<ThreadId>, out': seq<ThreadId>)
    requires AtRound(m, root, filter, rows, out, depth)
    ensures AtRound(m, root, filter, next, out', depth + 1)
  {
    NextRound(m, root, filter, out, rows, depth);
    next := NextRows(m, filter, rows);
    out' := out + SortSeq(next, NatLe);
  }

  lemma QueryResult(
    m: Edges, root: ThreadId, filter: Option<Status>, rows: seq<ThreadId>, out: seq<ThreadId>, depth: nat)
    requires rows == Rows(m, root, filter, depth) && ListedTo(m, root, filter, out, depth)
    requires rows == [] || depth == |m| + 1
    ensures rows != [] <==> Descends(m, root, filter, root)
    ensures rows == [] ==> IsListing(m, root, filter, out)
  {
    if rows == [] {
      EmptyRoundMeansNoCycle(m, root, filter, depth);
      ListedAll(m, root, filter, out, depth);
    } else {
      LateRowsMeanCycle(m, root, filter);
    }
  }

  lemma LateRowsMeanCycle(m: Edges, root: ThreadId, filter: Option<Status>)
    requires Rows(m, root, filter, |m| + 1) != []
    ensures Descends(m, root, filter, root)
  {
    QueryEndsExactlyWhenRootIsNotItsOwnDescendant(m, root, filter);
  }

  lemma EmptyRoundMeansNoCycle(m: Edges, root: ThreadId, filter: Option<Status>, depth: nat)
    requires Rows(m, root, filter, depth) == []
    ensures !Descends(m, root, filter, root)
  {
    QueryEndsExactlyWhenRootIsNotItsOwnDescendant(m, root, filter);
  }

  // ----- Proof of the listing

  ghost predicate ListedTo(m: Edges, root: ThreadId, filter: Option<Status>, out: seq<ThreadId>, depth: nat) {
    && (forall c :: c in out <==> Within(m, root, filter, c, depth))
    && (forall i, j :: 0 <= i < j < |out| ==> Before(m, root, filter, out[i], out[j]))
  }

  lemma RoundInOrder(m: Edges, root: ThreadId, filter: Option<Status>, depth: nat, a: ThreadId, b: ThreadId)
    requires AtDepth(m, root, filter, b, depth)
    requires (depth > 0 && Within(m, root, filter, a, depth - 1)) || (AtDepth(m, root, filter, a, depth) && a < b)
    ensures Before(m, root, filter, a, b)
  {
    if !(AtDepth(m, root, filter, a, depth) && a < b) {
      var d := WithinGivesDepth(m, root, filter, a, depth - 1);
      assert d < depth;
    }
  }

  lemma SortedRound(m: Edges, root: ThreadId, filter: Option<Status>, depth: nat) returns (sorted: seq<ThreadId>)
    ensures sorted == SortSeq(Rows(m, root, filter, depth), NatLe)
    ensures forall c :: c in sorted <==> AtDepth(m, root, filter, c, depth)
    ensures forall i, j :: 0 <= i < j < |sorted| ==> sorted[i] < sorted[j]
  {
    var rows := Rows(m, root, filter, depth);
    sorted := SortSeq(rows, NatLe);
    RowsAreDepths(m, root, filter, depth);
    SortSeqSorted(rows, NatLe);
    SortSeqNoDuplicates(rows, NatLe);
    SameMembers(sorted, rows);
    assert forall i, j :: 0 <= i < j < |sorted| ==> NatLe(sorted[i], sorted[j]) && sorted[i] != sorted[j];
  }

  lemma ListRound(m: Edges, root: ThreadId, filter: Option<Status>, out: seq<ThreadId>, depth: nat)
    requires depth > 0 && ListedTo(m, root, filter, out, depth - 1)
    ensures ListedTo(m, root, filter, out + SortSeq(Rows(m, root, filter, depth), NatLe), depth)
  {
    var sorted := SortedRound(m, root, filter, depth);
    var out' := out + sorted;
    forall i, j | 0 <= i < j < |out'| ensures Before(m, root, filter, out'[i], out'[j]) {
      if j >= |out| {
        assert out'[j] == sorted[j - |out|] && out'[j] in sorted;
        assert i < |out| ==> out'[i] in out;
        assert i >= |out| ==> out'[i] == sorted[i - |out|] && out'[i] in sorted;
        RoundInOrder(m, root, filter, depth, out'[i], out'[j]);
      }
    }
  }

  lemma NextRound(m: Edges, root: ThreadId, filter: Option<Status>, out: seq<ThreadId>, rows: seq<ThreadId>, depth: nat)
    requires rows == Rows(m, root, filter, depth) && ListedTo(m, root, filter, out, depth)
    ensures NextRows(m, filter, rows) == Rows(m, root, filter, depth + 1)
    ensures ListedTo(m, root, filter, out + SortSeq(NextRows(m, filter, rows), NatLe), depth + 1)
  {
    ListRound(m, root, filter, out, depth + 1);
  }

  lemma {:induction false} EmptyRoundEndsAll(m: Edges, root: ThreadId, filter: Option<Status>, empty: nat, depth: nat)
    requires Rows(m, root, filter, empty) == [] && empty <= depth
    ensures Rows(m, root, filter, depth) == []
    decreases depth
  {
    if empty < depth { EmptyRoundEndsAll(m, root, filter, empty, depth - 1); }
  }

  lemma ListedAll(m: Edges, root: ThreadId, filter: Option<Status>, out: seq<ThreadId>, depth: nat)
    requires ListedTo(m, root, filter, out, depth) && Rows(m, root, filter, depth) == []
    ensures IsListing(m, root, filter, out)
  {
    forall c ensures Within(m, root, filter, c, depth) <==> Descends(m, root, filter, c) {
      if Within(m, root, filter, c, depth) {
        var d := WithinGivesDepth(m, root, filter, c, depth);
      }
      if Descends(m, root, filter, c) {
        var d: nat :| d > 0 && AtDepth(m, root, filter, c, d);
        RowsAreDepths(m, root, filter, d);
        if depth < d { EmptyRoundEndsAll(m, root, filter, depth, d); }
        DepthIsWithin(m, root, filter, c, d, depth);
      }
    }
  }
}
