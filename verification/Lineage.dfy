/**
 The depth-bounded search that builds a parent-child event graph. Parent ids are data, so
 they may form cycles; but each row has one parent, which is why the visited check never
 cuts off a shorter route.
 */
module Lineage {
  import opened Options
  import opened Sequences
  import opened EventTable

  datatype Node = Node(eventType: string, aggregateType: Option<string>, sequence: int, createdAt: string)

  /** `id` is the primary key of the table. */
  ghost predicate UniqueIds(table: seq<Event>) {
    forall i, j :: 0 <= i < j < |table| ==> table[i].body.id != table[j].body.id
  }

  /** `WHERE id = :event_id` */
  function FindRow(table: seq<Event>, id: string): Option<Event> {
    if table == [] then None
    else if table[0].body.id == id then Some(table[0])
    else FindRow(table[1..], id)
  }

  lemma {:induction false} FindRowFacts(table: seq<Event>, id: string)
    ensures FindRow(table, id).Some? ==> FindRow(table, id).value in table && FindRow(table, id).value.body.id == id
    ensures FindRow(table, id).None? ==> forall e :: e in table ==> e.body.id != id
    ensures UniqueIds(table) ==> forall e :: e in table && e.body.id == id ==> FindRow(table, id) == Some(e)
  {
    if table != [] {
      FindRowFacts(table[1..], id);
      assert table == [table[0]] + table[1..];
      if UniqueIds(table) {
        assert UniqueIds(table[1..]);
        assert forall e :: e in table[1..] ==> e.body.id != table[0].body.id;
      }
    }
  }

  function HasParent(id: string): Event -> bool {
    (e: Event) => e.body.parent == Some(id)
  }

  function Describe(e: Event): Node {
    var r := ReadEvent(e).body;
    Node(r.eventType, r.aggregateType, r.sequence, r.createdAt)
  }

  predicate HasRow(table: seq<Event>, id: string) {
    FindRow(table, id).Some?
  }

  /** The stored parent id of a stored event. */
  function ParentOf(table: seq<Event>, id: string): Option<string> {
    var row := FindRow(table, id);
    if row.Some? then row.value.body.parent else None
  }

  /** `e.1` is stored with parent `e.0`. */
  predicate IsEdge(table: seq<Event>, e: (string, string)) {
    ParentOf(table, e.1) == Some(e.0)
  }

  /** `x` is at most `k` parent-to-child steps below the stored event `root`. */
  predicate Within(table: seq<Event>, root: string, x: string, k: nat)
    decreases k
  {
    HasRow(table, x) &&
    (x == root || (k > 0 && ParentOf(table, x).Some? && Within(table, root, ParentOf(table, x).value, k - 1)))
  }

  /** The same from any event `id`, along paths that do not pass through `root` again. */
  predicate Below(table: seq<Event>, root: string, id: string, x: string, k: nat)
    decreases k
  {
    HasRow(table, x) &&
    (x == id || (k > 0 && x != root && ParentOf(table, x).Some?
                 && Below(table, root, id, ParentOf(table, x).value, k - 1)))
  }

  lemma {:induction false} BelowRootIsWithin(table: seq<Event>, root: string, x: string, k: nat)
    ensures Below(table, root, root, x, k) <==> Within(table, root, x, k)
    decreases k
  {
    if HasRow(table, x) && x != root && k > 0 && ParentOf(table, x).Some? {
      BelowRootIsWithin(table, root, ParentOf(table, x).value, k - 1);
    }
  }

  lemma {:induction false} NothingBelowMissing(table: seq<Event>, root: string, id: string, x: string, k: nat)
    requires !HasRow(table, id)
    ensures !Below(table, root, id, x, k)
    decreases k
  {
    if HasRow(table, x) && k > 0 && ParentOf(table, x).Some? {
      NothingBelowMissing(table, root, id, ParentOf(table, x).value, k - 1);
    }
  }

  lemma NothingBelow(table: seq<Event>, root: string, id: string, k: nat)
    requires !HasRow(table, id)
    ensures forall x :: !Below(table, root, id, x, k)
  {
    forall x ensures !Below(table, root, id, x, k) {
      NothingBelowMissing(table, root, id, x, k);
    }
  }

  /** Every visited event is stored, and is the root or has a visited parent. */
  ghost predicate UpClosed(table: seq<Event>, root: string, visited: set<string>) {
    forall x :: x in visited ==>
      && HasRow(table, x)
      && (x == root || (ParentOf(table, x).Some? && ParentOf(table, x).value in visited))
  }

  /** Nothing below an unvisited event has been visited. */
  lemma {:induction false} UnvisitedBelow(table: seq<Event>, root: string, visited: set<string>,
                                          y: string, x: string, k: nat)
    requires UpClosed(table, root, visited) && y !in visited && x in visited
    ensures !Below(table, root, y, x, k)
    decreases k
  {
    if k > 0 && x != root && Below(table, root, y, x, k) {
      UnvisitedBelow(table, root, visited, y, ParentOf(table, x).value, k - 1);
    }
  }

  /** A child through which the search can go on. */
  predicate Branch(table: seq<Event>, root: string, id: string, c: string) {
    IsEdge(table, (id, c)) && c != root && c != id
  }

  /** What lies below `id` lies below one of its branches. */
  lemma {:induction false} BelowSomeBranch(table: seq<Event>, root: string, id: string, x: string, k: nat)
    returns (c: string)
    requires Below(table, root, id, x, k) && x != id
    ensures k > 0 && Branch(table, root, id, c) && Below(table, root, c, x, k - 1)
    decreases k
  {
    var p := ParentOf(table, x).value;
    if p == id {
      c := x;
    } else {
      c := BelowSomeBranch(table, root, id, p, k - 1);
    }
  }

  lemma {:induction false} BranchIsBelow(table: seq<Event>, root: string, id: string, c: string, x: string, k: nat)
    requires Branch(table, root, id, c) && HasRow(table, id)
    requires Below(table, root, c, x, k)
    ensures Below(table, root, id, x, k + 1)
    decreases k
  {
    if x == c {
      assert Below(table, root, id, id, k);
    } else if x != id {
      BranchIsBelow(table, root, id, c, ParentOf(table, x).value, k - 1);
    }
  }

  /** `x` is below one of the given children that had not been visited. */
  ghost predicate BelowOneOf(table: seq<Event>, root: string, visited: set<string>, kids: seq<string>, x: string,
                             k: nat) {
    exists j :: 0 <= j < |kids| && kids[j] !in visited && Below(table, root, kids[j], x, k)
  }

  lemma BelowOneOfSnoc(table: seq<Event>, root: string, visited: set<string>, kids: seq<string>, kid: string,
                       x: string, k: nat)
    ensures BelowOneOf(table, root, visited, kids + [kid], x, k) <==>
            BelowOneOf(table, root, visited, kids, x, k) || (kid !in visited && Below(table, root, kid, x, k))
  {
    var all := kids + [kid];
    if BelowOneOf(table, root, visited, kids, x, k) {
      var j :| 0 <= j < |kids| && kids[j] !in visited && Below(table, root, kids[j], x, k);
      assert all[j] == kids[j];
    }
    if kid !in visited && Below(table, root, kid, x, k) {
      assert all[|kids|] == kid;
    }
  }

  /** Exploring every unvisited child of `id` explores all that is below `id`. */
  lemma ChildrenCover(table: seq<Event>, root: string, visited: set<string>, id: string, kids: seq<string>, x: string,
                      k: nat)
    requires UpClosed(table, root, visited) && id !in visited && HasRow(table, id)
    requires root in visited || id == root
    requires forall c :: c in kids <==> IsEdge(table, (id, c))
    ensures Below(table, root, id, x, k) <==>
            x == id || (k > 0 && BelowOneOf(table, root, visited + {id}, kids, x, k - 1))
  {
    if x != id && Below(table, root, id, x, k) {
      var c := BelowSomeBranch(table, root, id, x, k);
      assert c in kids && c !in visited + {id};
    }
    if k > 0 && BelowOneOf(table, root, visited + {id}, kids, x, k - 1) {
      var j :| 0 <= j < |kids| && kids[j] !in visited + {id} && Below(table, root, kids[j], x, k - 1);
      assert kids[j] in kids;
      BranchIsBelow(table, root, id, kids[j], x, k - 1);
    }
  }

  /** An earlier sibling's subtree never contains a later sibling. */
  lemma SiblingUnvisited(table: seq<Event>, root: string, visited: set<string>, id: string, kids: seq<string>,
                         kid: string, k: nat)
    requires UpClosed(table, root, visited) && id in visited && root in visited && kid !in visited
    requires IsEdge(table, (id, kid)) && kid !in kids
    ensures !BelowOneOf(table, root, visited, kids, kid, k)
  {
    if BelowOneOf(table, root, visited, kids, kid, k) {
      var j :| 0 <= j < |kids| && kids[j] !in visited && Below(table, root, kids[j], kid, k);
      assert kids[j] in kids;
      UnvisitedBelow(table, root, visited, kids[j], id, k - 1);
    }
  }

  predicate NewEdge(table: seq<Event>, before: set<string>, after: set<string>, e: (string, string)) {
    e.0 in after && e.0 !in before && IsEdge(table, e)
  }

  /** The edges out of the newly visited events were added, each once. */
  ghost predicate EdgesAdded(table: seq<Event>, before: set<string>, after: set<string>,
                             start: seq<(string, string)>, now: seq<(string, string)>) {
    forall e :: multiset(now)[e] == multiset(start)[e] + (if NewEdge(table, before, after, e) then 1 else 0)
  }

  class LineageSearch {
    const table: seq<Event>
    const root: string
    const depth: int
    const order: (Event, Event) -> bool
    var nodes: map<string, Node>
    var edges: seq<(string, string)>

    constructor (table: seq<Event>, root: string, depth: int, order: (Event, Event) -> bool)
      ensures this.table == table && this.root == root && this.depth == depth && this.order == order
      ensures nodes == map[] && edges == []
    {
      this.table, this.root, this.depth, this.order := table, root, depth, order;
      nodes, edges := map[], [];
    }

    ghost predicate Described()
      reads this
    {
      && UpClosed(table, root, nodes.Keys)
      && (forall x :: x in nodes ==> nodes[x] == Describe(FindRow(table, x).value))
    }

    ghost predicate AreChildren(id: string, kids: seq<string>) {
      && (forall c :: c in kids <==> IsEdge(table, (id, c)))
      && (forall i, j :: 0 <= i < j < |kids| ==> kids[i] != kids[j])
    }

    /** The ids of the direct children, each once, in the order of the query. */
    method GetChildren(id: string) returns (kids: seq<string>)
      requires UniqueIds(table)
      ensures AreChildren(id, kids)
    {
      var rows := SortBy(order, Filter(HasParent(id), table));
      kids := Map((e: Event) => e.body.id, rows);
      ChildRows(table, id, rows, order);
      forall c ensures c in kids <==> IsEdge(table, (id, c)) {
        FindRowFacts(table, c);
        if c in kids {
          var i :| 0 <= i < |kids| && kids[i] == c;
          assert rows[i] in table && rows[i].body.id == c;
        }
        if IsEdge(table, (id, c)) {
          var i :| 0 <= i < |rows| && rows[i] == FindRow(table, c).value;
          assert kids[i] == c;
        }
      }
    }

    /** `id` is where the search starts, or a child of a visited event. */
    ghost predicate Reached(id: string)
      reads this
    {
      id == root || (root in nodes && ParentOf(table, id).Some? && ParentOf(table, id).value in nodes)
    }

    /** `_traverse`: visit `id` and everything below it that is within reach. */
    method Traverse(id: string, current: int)
      requires UniqueIds(table) && Described() && Reached(id)
      modifies this
      ensures Described() && old(nodes.Keys) <= nodes.Keys
      ensures current > depth || old(id in nodes) ==> nodes == old(nodes)
      ensures current <= depth && old(id !in nodes) ==>
        forall x :: x in nodes <==> x in old(nodes) || Below(table, root, id, x, depth - current)
      ensures EdgesAdded(table, old(nodes.Keys), nodes.Keys, old(edges), edges)
      decreases if current > depth then 0 else depth - current + 1, 2
    {
      if current > depth || id in nodes {
        return;
      }
      var row := FindRow(table, id);
      if row.None? {
        NothingBelow(table, root, id, depth - current);
        return;
      }
      ghost var n0, e0 := nodes.Keys, edges;
      nodes := nodes[id := Describe(row.value)];
      var kids := GetChildren(id);
      assert nodes.Keys == n0 + {id};
      Expand(id, kids, current);
      CoverAll(n0, id, kids, current);
      OwnEdges(n0, nodes.Keys, e0, edges, id, kids);
    }

    lemma CoverAll(visited: set<string>, id: string, kids: seq<string>, current: int)
      requires UpClosed(table, root, visited) && id !in visited && HasRow(table, id)
      requires (root in visited || id == root) && current <= depth
      requires forall c :: c in kids <==> IsEdge(table, (id, c))
      ensures forall x :: Below(table, root, id, x, depth - current) <==>
                          x == id || Covered(visited + {id}, kids, x, current)
    {
      forall x ensures Below(table, root, id, x, depth - current) <==>
                       x == id || Covered(visited + {id}, kids, x, current)
      {
        ChildrenCover(table, root, visited, id, kids, x, depth - current);
      }
    }

    lemma OwnEdges(before: set<string>, after: set<string>, start: seq<(string, string)>,
                   now: seq<(string, string)>, id: string, kids: seq<string>)
      requires id !in before && id in after
      requires forall c :: c in kids <==> IsEdge(table, (id, c))
      requires forall e :: multiset(now)[e] == EdgeCount(before + {id}, after, start, id, kids, e)
      ensures EdgesAdded(table, before, after, start, now)
    {
      forall e ensures multiset(now)[e] == multiset(start)[e] + (if NewEdge(table, before, after, e) then 1 else 0) {
        assert e == (e.0, e.1);
        assert multiset(now)[e] == EdgeCount(before + {id}, after, start, id, kids, e);
      }
    }

    /** The search after exploring some of the children of `id`, starting from `n1` and `e1`. */
    ghost predicate Explored(n1: set<string>, e1: seq<(string, string)>, n: set<string>, e: seq<(string, string)>,
                             id: string, kids: seq<string>, current: int)
    {
      && n1 <= n
      && (forall x :: x in n <==> x in n1 || Covered(n1, kids, x, current))
      && (forall p :: multiset(e)[p] == EdgeCount(n1, n, e1, id, kids, p))
    }

    lemma NothingExplored(n: set<string>, e: seq<(string, string)>, id: string, kids: seq<string>, current: int)
      ensures Explored(n, e, n, e, id, kids[..0], current)
    {
    }

    lemma NextChild(id: string, kids: seq<string>, i: nat)
      requires AreChildren(id, kids) && i < |kids|
      ensures IsEdge(table, (id, kids[i])) && kids[i] !in kids[..i]
      ensures kids[..i + 1] == kids[..i] + [kids[i]]
    {
      assert kids[i] in kids;
    }

    /** The next child: visited before, or unvisited as a whole. */
    lemma NextChildUnvisited(n1: set<string>, e1: seq<(string, string)>, n2: set<string>, e2: seq<(string, string)>,
                             id: string, kids: seq<string>, kid: string, current: int)
      requires UpClosed(table, root, n1) && id in n1 && root in n1
      requires Explored(n1, e1, n2, e2, id, kids, current)
      requires IsEdge(table, (id, kid)) && kid !in kids
      ensures kid in n2 <==> kid in n1
    {
      if kid !in n1 && current < depth {
        SiblingUnvisited(table, root, n1, id, kids, kid, depth - current - 1);
      }
    }

    lemma ExploredStep(n1: set<string>, e1: seq<(string, string)>, n2: set<string>, e2: seq<(string, string)>,
                       n3: set<string>, e3: seq<(string, string)>, id: string, kids: seq<string>, kid: string,
                       current: int)
      requires Explored(n1, e1, n2, e2, id, kids, current)
      requires id in n1 && kid !in kids && n2 <= n3 && (kid in n2 <==> kid in n1)
      requires current + 1 > depth || kid in n2 ==> n3 == n2
      requires current + 1 <= depth && kid !in n2 ==>
        forall x :: x in n3 <==> x in n2 || Below(table, root, kid, x, depth - current - 1)
      requires EdgesAdded(table, n2, n3, e2 + [(id, kid)], e3)
      ensures Explored(n1, e1, n3, e3, id, kids + [kid], current)
    {
      forall x ensures x in n3 <==> x in n1 || Covered(n1, kids + [kid], x, current) {
        if current < depth {
          BelowOneOfSnoc(table, root, n1, kids, kid, x, depth - current - 1);
        }
      }
      EdgeStep(n1, n2, n3, e1, e2, e3, id, kids, kid);
    }

    /** One turn of the loop of `_traverse`: record the edge, then search below the child. */
    method VisitChild(ghost n1: set<string>, ghost e1: seq<(string, string)>, id: string, ghost done: seq<string>,
                      kid: string, current: int)
      requires UniqueIds(table) && Described() && id in nodes && root in nodes && current <= depth
      requires UpClosed(table, root, n1) && id in n1 && root in n1
      requires Explored(n1, e1, nodes.Keys, edges, id, done, current)
      requires IsEdge(table, (id, kid)) && kid !in done
      modifies this
      ensures Described() && old(nodes.Keys) <= nodes.Keys
      ensures Explored(n1, e1, nodes.Keys, edges, id, done + [kid], current)
      decreases depth - current + 1, 0
    {
      ghost var n2, e2 := nodes.Keys, edges;
      NextChildUnvisited(n1, e1, n2, e2, id, done, kid, current);
      edges := edges + [(id, kid)];
      Traverse(kid, current + 1);
      ExploredStep(n1, e1, n2, e2, nodes.Keys, edges, id, done, kid, current);
    }

    /** The loop of `_traverse` over the children of the event just visited. */
    method Expand(id: string, kids: seq<string>, current: int)
      requires UniqueIds(table) && Described() && id in nodes && root in nodes && current <= depth
      requires AreChildren(id, kids)
      modifies this
      ensures Described()
      ensures Explored(old(nodes.Keys), old(edges), nodes.Keys, edges, id, kids, current)
      decreases depth - current + 1, 1
    {
      ghost var n1, e1 := nodes.Keys, edges;
      NothingExplored(n1, e1, id, kids, current);
      for i := 0 to |kids|
        invariant Described() && id in nodes && root in nodes
        invariant Explored(n1, e1, nodes.Keys, edges, id, kids[..i], current)
      {
        NextChild(id, kids, i);
        VisitChild(n1, e1, id, kids[..i], kids[i], current);
      }
      assert kids[..|kids|] == kids;
    }

    /** `x` is in reach through one of the given children. */
    ghost predicate Covered(visited: set<string>, kids: seq<string>, x: string, current: int) {
      current < depth && BelowOneOf(table, root, visited, kids, x, depth - current - 1)
    }

    /** How often an edge is listed once the given children of `id` have been explored. */
    ghost function EdgeCount(before: set<string>, after: set<string>, start: seq<(string, string)>,
                             id: string, kids: seq<string>, e: (string, string)): nat
    {
      multiset(start)[e] + (if NewEdge(table, before, after, e) then 1 else 0)
                         + (if e.0 == id && e.1 in kids then 1 else 0)
    }

    lemma EdgeStep(n1: set<string>, n2: set<string>, n3: set<string>, e1: seq<(string, string)>,
                   e2: seq<(string, string)>, e3: seq<(string, string)>, id: string, kids: seq<string>, kid: string)
      requires n1 <= n2 <= n3 && id in n1 && kid !in kids
      requires forall e :: multiset(e2)[e] == EdgeCount(n1, n2, e1, id, kids, e)
      requires EdgesAdded(table, n2, n3, e2 + [(id, kid)], e3)
      ensures forall e :: multiset(e3)[e] == EdgeCount(n1, n3, e1, id, kids + [kid], e)
    {
      forall e ensures multiset(e3)[e] == EdgeCount(n1, n3, e1, id, kids + [kid], e) {
        assert multiset(e2 + [(id, kid)])[e] == multiset(e2)[e] + if e == (id, kid) then 1 else 0;
      }
    }
  }

  /** The children query returns distinct rows: the stored rows with this parent. */
  lemma ChildRows(table: seq<Event>, id: string, rows: seq<Event>, order: (Event, Event) -> bool)
    requires UniqueIds(table) && rows == SortBy(order, Filter(HasParent(id), table))
    ensures forall e :: e in rows <==> e in table && e.body.parent == Some(id)
    ensures forall i, j :: 0 <= i < j < |rows| ==> rows[i].body.id != rows[j].body.id
  {
    FilterMembers(HasParent(id), table);
    SortMultiset(order, Filter(HasParent(id), table));
    FilterMultiplicity(HasParent(id), table);
    forall i, j | 0 <= i < j < |rows| ensures rows[i].body.id != rows[j].body.id {
      if rows[i].body.id == rows[j].body.id {
        assert rows[i] in table && rows[j] in table;
        FindRowFacts(table, rows[i].body.id);
        assert rows[i] == rows[j];
        TwiceInMultiset(rows, i, j);
        DistinctOnce(table, rows[i]);
      }
    }
  }

  lemma {:induction false} FilterMultiplicity<T>(p: T -> bool, s: seq<T>)
    ensures multiset(Filter(p, s)) <= multiset(s)
  {
    if s != [] {
      FilterMultiplicity(p, s[..|s| - 1]);
      assert s == s[..|s| - 1] + [s[|s| - 1]];
    }
  }

  lemma TwiceInMultiset<T>(s: seq<T>, i: nat, j: nat)
    requires i < j < |s| && s[i] == s[j]
    ensures multiset(s)[s[i]] >= 2
  {
    assert s == s[..i] + [s[i]] + s[i + 1..j] + [s[j]] + s[j + 1..];
  }

  lemma {:induction false} DistinctOnce(table: seq<Event>, e: Event)
    requires UniqueIds(table)
    ensures multiset(table)[e] <= 1
  {
    if table != [] {
      var n := |table| - 1;
      DistinctOnce(table[..n], e);
      assert table == table[..n] + [table[n]];
      if table[n] == e && e in table[..n] {
        assert false;
      }
    }
  }

  /**
   The graph of a root. Its nodes are exactly the events within `depth` parent-to-child steps
   of the stored root, whatever cycles the parent ids form; its edges are exactly the stored
   parent-child pairs whose parent is a node, each once.
   */
  method GetLineageGraph(table: seq<Event>, root: string, depth: int, order: (Event, Event) -> bool)
    returns (nodes: map<string, Node>, edges: seq<(string, string)>)
    requires UniqueIds(table)
    ensures forall x :: x in nodes <==> depth >= 0 && Within(table, root, x, depth)
    ensures forall x, row :: x in nodes && row in table && row.body.id == x ==>
      && nodes[x].eventType == row.body.eventType && nodes[x].sequence == row.body.sequence
      && nodes[x].createdAt == row.body.createdAt
      && nodes[x].aggregateType == if row.body.aggregateType == Some("") then None else row.body.aggregateType
    ensures forall e :: multiset(edges)[e] == (if e.0 in nodes && IsEdge(table, e) then 1 else 0)
  {
    var search := new LineageSearch(table, root, depth, order);
    search.Traverse(root, 0);
    nodes, edges := search.nodes, search.edges;
    if depth >= 0 {
      forall x { BelowRootIsWithin(table, root, x, depth); }
    }
    NodePayload(table, nodes);
  }

  lemma NodePayload(table: seq<Event>, nodes: map<string, Node>)
    requires UniqueIds(table)
    requires forall x :: x in nodes ==> HasRow(table, x) && nodes[x] == Describe(FindRow(table, x).value)
    ensures forall x, row :: x in nodes && row in table && row.body.id == x ==>
      && nodes[x].eventType == row.body.eventType && nodes[x].sequence == row.body.sequence
      && nodes[x].createdAt == row.body.createdAt
      && nodes[x].aggregateType == if row.body.aggregateType == Some("") then None else row.body.aggregateType
  {
    forall x, row | x in nodes && row in table && row.body.id == x ensures FindRow(table, x) == Some(row) {
      FindRowFacts(table, x);
    }
  }
}
