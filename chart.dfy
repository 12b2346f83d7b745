/**
 * The supervision chart: `buildChartTree` indexes the members with a `rowId`
 * by that id and hangs each one under the member its `supervisor` names, or
 * makes it a root when that supervisor is empty or unknown.
 */
module Chart {
  import opened Maybe
  import opened Records

  /**
   * The forest `buildChartTree` builds, by `rowId`: the node records, the root
   * ids, and each node's list of children.
   */
  datatype Tree = Tree(nodes: map<string, Member>, roots: seq<string>, children: map<string, seq<string>>)

  /** The node a record hangs under: its `supervisor` when that names a node. */
  function Parent(nodes: map<string, Member>, id: string): (r: Option<string>)
    ensures r.Some? ==> id in nodes && r.value == Prop(nodes[id], "supervisor") && r.value in nodes
    ensures id in nodes && r.None? ==> Prop(nodes[id], "supervisor") == "" || Prop(nodes[id], "supervisor") !in nodes
  {
    if id in nodes && Prop(nodes[id], "supervisor") != "" && Prop(nodes[id], "supervisor") in nodes
    then Some(Prop(nodes[id], "supervisor"))
    else None
  }

  /**
   * The first loop's map: every record with a `rowId` under that id, a later
   * record replacing an earlier one with the same id.
   */
  function NodesOf(members: seq<Member>): (r: map<string, Member>)
    ensures forall id :: id in r ==> Id(r[id]) == id
  {
    if members == [] then map[]
    else
      var last := members[|members| - 1];
      var r := NodesOf(members[..|members| - 1]);
      if HasRowId(last) then r[Id(last) := last] else r
  }

  /** The map holds exactly the ids of the records that have one. */
  lemma {:induction false} NodesOfKeys(members: seq<Member>, id: string)
    ensures id in NodesOf(members) <==> exists m :: m in members && HasRowId(m) && Id(m) == id
  {
    if members != [] {
      var prefix := members[..|members| - 1];
      assert members == prefix + [members[|members| - 1]];
      NodesOfKeys(prefix, id);
    }
  }

  /** The record the map keeps under an id is the last record with that id. */
  lemma {:induction false} NodesOfLast(members: seq<Member>, i: int)
    requires 0 <= i < |members| && HasRowId(members[i])
    requires forall j :: i < j < |members| ==> Id(members[j]) != Id(members[i])
    ensures Id(members[i]) in NodesOf(members) && NodesOf(members)[Id(members[i])] == members[i]
  {
    if i < |members| - 1 {
      NodesOfLast(members[..|members| - 1], i);
    }
  }

  /** The ids in the order the map first received them (its iteration order). */
  function OrderOf(members: seq<Member>): (r: seq<string>)
    ensures forall id :: id in r <==> id in NodesOf(members)
    ensures forall i, j :: 0 <= i < j < |r| ==> r[i] != r[j]
  {
    if members == [] then []
    else
      var last := members[|members| - 1];
      var r := OrderOf(members[..|members| - 1]);
      if HasRowId(last) && Id(last) !in r then r + [Id(last)] else r
  }

  /** The ids of `ids`, in order, that hang under no node. */
  function RootsAmong(nodes: map<string, Member>, ids: seq<string>): (r: seq<string>)
    ensures forall id :: id in r <==> id in ids && Parent(nodes, id).None?
  {
    if ids == [] then []
    else
      var prefix := ids[..|ids| - 1];
      var last := ids[|ids| - 1];
      assert ids == prefix + [last];
      RootsAmong(nodes, prefix) + if Parent(nodes, last).None? then [last] else []
  }

  /** The ids of `ids`, in order, that hang under node `p`. */
  function ChildrenAmong(nodes: map<string, Member>, ids: seq<string>, p: string): (r: seq<string>)
    ensures forall id :: id in r <==> id in ids && Parent(nodes, id) == Some(p)
  {
    if ids == [] then []
    else
      var prefix := ids[..|ids| - 1];
      var last := ids[|ids| - 1];
      assert ids == prefix + [last];
      ChildrenAmong(nodes, prefix, p) + if Parent(nodes, last) == Some(p) then [last] else []
  }

  /** The forest `buildChartTree` returns for `members`. */
  function ChartOf(members: seq<Member>): Tree {
    var nodes := NodesOf(members);
    var order := OrderOf(members);
    Tree(nodes, RootsAmong(nodes, order), ChildrenMap(nodes, order))
  }

  /** The children lists of every node, in key order. */
  function ChildrenMap(nodes: map<string, Member>, order: seq<string>): map<string, seq<string>> {
    map p | p in nodes :: ChildrenAmong(nodes, order, p)
  }

  /** The first pass of `buildChartTree`: the map from `rowId` to record, and its key order. */
  method IndexMembers(members: seq<Member>) returns (nodes: map<string, Member>, order: seq<string>)
    ensures nodes == NodesOf(members) && order == OrderOf(members)
  {
    nodes, order := map[], [];
    for i := 0 to |members|
      invariant nodes == NodesOf(members[..i])
      invariant order == OrderOf(members[..i])
    {
      var m := members[i];
      assert members[..i + 1][..i] == members[..i];
      if HasRowId(m) {
        if Id(m) !in nodes {
          order := order + [Id(m)];
        }
        nodes := nodes[Id(m) := m];
      }
    }
    assert members[..|members|] == members;
  }

  /** The second pass of `buildChartTree`: each node goes onto its supervisor's children or onto the roots. */
  method HangNodes(nodes: map<string, Member>, order: seq<string>)
    returns (roots: seq<string>, children: map<string, seq<string>>)
    requires forall id :: id in order ==> id in nodes
    ensures roots == RootsAmong(nodes, order)
    ensures children == ChildrenMap(nodes, order)
  {
    roots := [];
    children := map p | p in nodes :: [];
    for j := 0 to |order|
      invariant roots == RootsAmong(nodes, order[..j])
      invariant children.Keys == nodes.Keys
      invariant forall p :: p in nodes ==> children[p] == ChildrenAmong(nodes, order[..j], p)
    {
      var id := order[j];
      var supervisor := Prop(nodes[id], "supervisor");
      assert order[..j + 1][..j] == order[..j];
      if supervisor != "" && supervisor in nodes {
        children := children[supervisor := children[supervisor] + [id]];
      } else {
        roots := roots + [id];
      }
    }
    assert order[..|order|] == order;
    assert children == ChildrenMap(nodes, order) by {
      forall p | p in children ensures children[p] == ChildrenMap(nodes, order)[p] {}
    }
  }

  /** `buildChartTree`: index the members by `rowId`, then hang every node. */
  method BuildChartTree(members: seq<Member>) returns (tree: Tree)
    ensures tree == ChartOf(members)
  {
    var nodes, order := IndexMembers(members);
    var roots, children := HangNodes(nodes, order);
    tree := Tree(nodes, roots, children);
  }

  /**
   * Every node is a root exactly when its `supervisor` is empty or names no
   * node, and otherwise sits among the children of that supervisor and of no
   * other node.
   */
  lemma ChartPlacement(members: seq<Member>, id: string)
    requires id in NodesOf(members)
    ensures var tree := ChartOf(members);
      var supervisor := Prop(tree.nodes[id], "supervisor");
      && (id in tree.roots <==> supervisor == "" || supervisor !in tree.nodes)
      && (id !in tree.roots ==> supervisor in tree.children && id in tree.children[supervisor])
      && forall p :: p in tree.children && id in tree.children[p] ==> p == supervisor
  {}

  /** `RootsAmong` keeps each root as often as `ids` lists it and drops every other id. */
  lemma {:induction false} RootsAmongCount(nodes: map<string, Member>, ids: seq<string>, id: string)
    ensures multiset(RootsAmong(nodes, ids))[id]
         == if Parent(nodes, id).None? then multiset(ids)[id] else 0
  {
    if ids != [] {
      var prefix, last := ids[..|ids| - 1], ids[|ids| - 1];
      assert ids == prefix + [last];
      RootsAmongCount(nodes, prefix, id);
    }
  }

  /** `ChildrenAmong` keeps each child of `p` as often as `ids` lists it and drops every other id. */
  lemma {:induction false} ChildrenAmongCount(nodes: map<string, Member>, ids: seq<string>, p: string, id: string)
    ensures multiset(ChildrenAmong(nodes, ids, p))[id]
         == if Parent(nodes, id) == Some(p) then multiset(ids)[id] else 0
  {
    if ids != [] {
      var prefix, last := ids[..|ids| - 1], ids[|ids| - 1];
      assert ids == prefix + [last];
      ChildrenAmongCount(nodes, prefix, p, id);
    }
  }

  /** An id listed once in a sequence without repeats occurs exactly once in it. */
  lemma {:induction false} DistinctOnce(s: seq<string>, id: string)
    requires forall i, j :: 0 <= i < j < |s| ==> s[i] != s[j]
    requires id in s
    ensures multiset(s)[id] == 1
  {
    assert s == [s[0]] + s[1..];
    if s[0] == id {
      assert id !in s[1..];
    } else {
      DistinctOnce(s[1..], id);
    }
  }

  /**
   * Every node appears exactly once in the forest: once among the roots and
   * in no children list when it is a root, and otherwise once among the
   * children of its supervisor, in no other children list and not among the
   * roots.
   */
  lemma ChartPlacesOnce(members: seq<Member>, id: string)
    requires id in NodesOf(members)
    ensures var tree := ChartOf(members);
      var supervisor := Prop(tree.nodes[id], "supervisor");
      var isRoot := supervisor == "" || supervisor !in tree.nodes;
      && multiset(tree.roots)[id] == (if isRoot then 1 else 0)
      && (!isRoot ==> supervisor in tree.children && multiset(tree.children[supervisor])[id] == 1)
      && forall p :: p in tree.children && p != supervisor ==> multiset(tree.children[p])[id] == 0
  {
    var nodes, order := NodesOf(members), OrderOf(members);
    DistinctOnce(order, id);
    RootsAmongCount(nodes, order, id);
    forall p | p in nodes {
      ChildrenAmongCount(nodes, order, p, id);
    }
  }

  // ---- Supervision cycles ----

  /** The node `n` supervision steps above `id`, stopping at a root. */
  function Ancestor(nodes: map<string, Member>, id: string, n: nat): string
    decreases n
  {
    if n == 0 then id
    else match Parent(nodes, id)
      case None => id
      case Some(p) => Ancestor(nodes, p, n - 1)
  }

  /** `id` has a supervisor node, and following supervisors leads back to it. */
  ghost predicate OnSupervisionCycle(nodes: map<string, Member>, id: string) {
    Parent(nodes, id).Some? && exists k: nat :: 1 <= k && Ancestor(nodes, id, k) == id
  }

  /** `id` is a root, or a child of a node reachable in `n - 1` steps. */
  ghost predicate ReachableIn(tree: Tree, id: string, n: nat)
    decreases n
  {
    if n == 0 then id in tree.roots
    else exists p :: p in tree.children && id in tree.children[p] && ReachableIn(tree, p, n - 1)
  }

  lemma {:induction false} AncestorAdd(nodes: map<string, Member>, id: string, a: nat, b: nat)
    ensures Ancestor(nodes, id, a + b) == Ancestor(nodes, Ancestor(nodes, id, a), b)
    decreases a
  {
    if a > 0 {
      match Parent(nodes, id)
      case None =>
        assert Ancestor(nodes, id, b) == id;
      case Some(p) =>
        AncestorAdd(nodes, p, a - 1, b);
        assert a + b - 1 == (a - 1) + b;
    }
  }

  lemma {:induction false} CycleRepeats(nodes: map<string, Member>, id: string, k: nat, j: nat)
    requires Ancestor(nodes, id, k) == id
    ensures Ancestor(nodes, id, j * k) == id
    decreases j
  {
    if j > 0 {
      CycleRepeats(nodes, id, k, j - 1);
      assert j * k == (j - 1) * k + k;
      AncestorAdd(nodes, id, (j - 1) * k, k);
    }
  }

  /** Every root has no supervisor node, and every child hangs under its own supervisor. */
  ghost predicate HungBySupervisor(tree: Tree) {
    && (forall id :: id in tree.roots ==> Parent(tree.nodes, id).None?)
    && (forall p, id :: p in tree.children && id in tree.children[p] ==> Parent(tree.nodes, id) == Some(p))
  }

  lemma ChartHungBySupervisor(members: seq<Member>)
    ensures HungBySupervisor(ChartOf(members))
  {
    var tree := ChartOf(members);
    forall p, id | p in tree.children && id in tree.children[p]
      ensures Parent(tree.nodes, id) == Some(p)
    {
      assert tree.children[p] == ChildrenAmong(tree.nodes, OrderOf(members), p);
    }
  }

  /** A node reachable from a root in `n` steps has that root `n` supervision steps up. */
  lemma {:induction false} ReachableLeadsToRoot(tree: Tree, id: string, n: nat)
    requires HungBySupervisor(tree)
    requires ReachableIn(tree, id, n)
    ensures Parent(tree.nodes, Ancestor(tree.nodes, id, n)).None?
    decreases n
  {
    if n > 0 {
      var p :| p in tree.children && id in tree.children[p] && ReachableIn(tree, p, n - 1);
      ReachableLeadsToRoot(tree, p, n - 1);
    }
  }

  /** In a forest hung by supervisor, no node on a supervision cycle is reachable from a root. */
  lemma CycleUnreachableIn(tree: Tree, id: string, n: nat)
    requires HungBySupervisor(tree)
    requires OnSupervisionCycle(tree.nodes, id)
    ensures !ReachableIn(tree, id, n)
  {
    var nodes := tree.nodes;
    if ReachableIn(tree, id, n) {
      var k: nat :| 1 <= k && Ancestor(nodes, id, k) == id;
      ReachableLeadsToRoot(tree, id, n);
      var root := Ancestor(nodes, id, n);
      CycleRepeats(nodes, id, k, n);
      var m := n * k;
      assert m >= n by {
        assert n * k - n == n * (k - 1);
      }
      AncestorAdd(nodes, id, n, m - n);
      assert false;
    }
  }

  /**
   * Members on a supervision cycle are reachable from no root, so the chart
   * never shows them.
   */
  lemma CycleUnreachable(members: seq<Member>, id: string, n: nat)
    requires OnSupervisionCycle(NodesOf(members), id)
    ensures !ReachableIn(ChartOf(members), id, n)
  {
    ChartHungBySupervisor(members);
    CycleUnreachableIn(ChartOf(members), id, n);
  }
}
