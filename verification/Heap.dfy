/** The pointer-linked binary heap of libuv (src/heap-inl.h), over a memory that maps each node to
    its links. The nodes in level order give the shape of the tree: the links of a node are those
    its position asks for. */
module Heap {
  type Node = nat

  datatype Ref = Null | To(node: Node)

  datatype Links = Links(left: Ref, right: Ref, parent: Ref)

  type Memory = map<Node, Links>

  /** What timers are ordered by: timeout, then the order of starting. */
  datatype Rank = Rank(timeout: nat, startId: nat)

  predicate RankLess(a: Rank, b: Rank) {
    a.timeout < b.timeout || (a.timeout == b.timeout && a.startId < b.startId)
  }

  // Positions

  function At(nodes: seq<Node>, i: int): Ref {
    if 0 <= i < |nodes| then To(nodes[i]) else Null
  }

  function Up(i: int): int {
    if i <= 0 then -1 else (i - 1) / 2
  }

  ghost predicate Distinct(nodes: seq<Node>) {
    forall i, j :: 0 <= i < j < |nodes| ==> nodes[i] != nodes[j]
  }

  function Wanted(nodes: seq<Node>, i: int): Links {
    Links(At(nodes, 2 * i + 1), At(nodes, 2 * i + 2), At(nodes, Up(i)))
  }

  ghost predicate PlacedAt(mem: Memory, nodes: seq<Node>, i: nat) {
    i < |nodes| && nodes[i] in mem && mem[nodes[i]] == Wanted(nodes, i)
  }

  /** The links of every node are those its position asks for. */
  ghost predicate Shaped(mem: Memory, nodes: seq<Node>) {
    Distinct(nodes) && forall i :: 0 <= i < |nodes| ==> PlacedAt(mem, nodes, i)
  }

  /** Nodes at different positions are different. */
  lemma Apart(nodes: seq<Node>, i: int, j: int)
    requires Distinct(nodes) && 0 <= i < |nodes|
    ensures To(nodes[i]) == At(nodes, j) <==> i == j
  {
  }

  // Exchanging a node and its parent

  function Swapped(nodes: seq<Node>, p: nat, c: nat): seq<Node>
    requires p < |nodes| && c < |nodes|
  {
    nodes[p := nodes[c]][c := nodes[p]]
  }

  function Other(i: int, p: int, c: int): int {
    if i == p then c else if i == c then p else i
  }

  /** The links of n after parent and child have changed places. */
  function Exchanged(mem: Memory, parent: Node, child: Node, n: Node): Links
    requires parent in mem && child in mem && n in mem
  {
    var was, below, links := mem[parent], mem[child], mem[n];
    var sibling := if was.left == To(child) then was.right else was.left;
    if n == child then
      if was.left == To(child) then Links(To(parent), was.right, was.parent)
          else Links(was.left, To(parent), was.parent)
    else if n == parent then Links(below.left, below.right, To(child))
    else
      Links(if To(n) == was.parent && links.left == To(parent) then To(child) else links.left,
            if To(n) == was.parent && links.left != To(parent) then To(child) else links.right,
            if To(n) == sibling then To(child) else if To(n) == below.left || To(n) == below.right then To(parent)
                else links.parent)
  }

  /** The exchanged links are those of the new positions. */
  lemma ExchangedPlace(mem: Memory, nodes: seq<Node>, p: nat, c: nat, i: nat)
    requires PlacedAt(mem, nodes, p) && PlacedAt(mem, nodes, c) && PlacedAt(mem, nodes, i) && Distinct(nodes) && 0 < c
    requires p == Up(c)
    ensures Exchanged(mem, nodes[p], nodes[c], nodes[i]) == Wanted(Swapped(nodes, p, c), Other(i, p, c))
  {
    Apart(nodes, p, c);
    if i == p || i == c {
      ExchangedTwo(mem, nodes, p, c);
    } else {
      ExchangedThird(mem, nodes, p, c, i);
    }
  }

  lemma ExchangedTwo(mem: Memory, nodes: seq<Node>, p: nat, c: nat)
    requires PlacedAt(mem, nodes, p) && PlacedAt(mem, nodes, c) && Distinct(nodes) && 0 < c && p == Up(c)
    ensures Exchanged(mem, nodes[p], nodes[c], nodes[p]) == Wanted(Swapped(nodes, p, c), c)
    ensures Exchanged(mem, nodes[p], nodes[c], nodes[c]) == Wanted(Swapped(nodes, p, c), p)
  {
    Apart(nodes, p, c);
    Apart(nodes, c, 2 * p + 1);
  }

  lemma ExchangedThird(mem: Memory, nodes: seq<Node>, p: nat, c: nat, i: nat)
    requires PlacedAt(mem, nodes, p) && PlacedAt(mem, nodes, c) && PlacedAt(mem, nodes, i) && Distinct(nodes) && 0 < c
    requires p == Up(c)
    requires i != p && i != c
    ensures Exchanged(mem, nodes[p], nodes[c], nodes[i]) == Wanted(Swapped(nodes, p, c), i)
  {
    Apart(nodes, p, c);
    Apart(nodes, i, Up(p));
    Apart(nodes, i, if c % 2 == 1 then c + 1 else c - 1);
    Apart(nodes, i, 2 * c + 1);
    Apart(nodes, i, 2 * c + 2);
  }

  lemma SwappedDistinct(nodes: seq<Node>, p: nat, c: nat)
    requires Distinct(nodes) && p < |nodes| && c < |nodes| && p != c
    ensures Distinct(Swapped(nodes, p, c))
  {
  }

  lemma SwappedSet(nodes: seq<Node>, p: nat, c: nat)
    requires p < |nodes| && c < |nodes| && p != c
    ensures forall n :: n in Swapped(nodes, p, c) <==> n in nodes
  {
    var s := Swapped(nodes, p, c);
    assert s[p] == nodes[c] && s[c] == nodes[p];
    forall n | n in nodes ensures n in s {
      var i :| 0 <= i < |nodes| && nodes[i] == n;
      assert i != p && i != c ==> s[i] == n;
    }
  }

  /** Memory in which the exchange has been made has the shape of the swapped positions. */
  lemma ExchangedShape(mem: Memory, after: Memory, nodes: seq<Node>, p: nat, c: nat)
    requires Shaped(mem, nodes) && 0 < c < |nodes| && p == Up(c) && after.Keys == mem.Keys
    requires nodes[p] in mem && nodes[c] in mem
    requires forall n :: n in mem ==> after[n] == Exchanged(mem, nodes[p], nodes[c], n)
    ensures Shaped(after, Swapped(nodes, p, c))
  {
    hide Exchanged, Wanted;
    var now := Swapped(nodes, p, c);
    SwappedDistinct(nodes, p, c);
    forall i | 0 <= i < |now| ensures PlacedAt(after, now, i) {
      var j := Other(i, p, c);
      assert now[i] == nodes[j] && PlacedAt(mem, nodes, j);
      assert PlacedAt(mem, nodes, p) && PlacedAt(mem, nodes, c);
      ExchangedPlace(mem, nodes, p, c, j);
    }
  }

  function SetLeft(mem: Memory, n: Node, r: Ref): Memory
    requires n in mem
  {
    mem[n := mem[n].(left := r)]
  }

  function SetRight(mem: Memory, n: Node, r: Ref): Memory
    requires n in mem
  {
    mem[n := mem[n].(right := r)]
  }

  function SetParent(mem: Memory, r: Ref, parent: Ref): (m: Memory)
    requires r.To? ==> r.node in mem
    ensures m.Keys == mem.Keys && forall n :: n in mem ==> m[n] == if r == To(n) then mem[n].(parent := parent)
        else mem[n]
  {
    if r.Null? then mem else mem[r.node := mem[r.node].(parent := parent)]
  }

  /** The nodes around a parent and its child are different and in memory. */
  ghost predicate Around(mem: Memory, parent: Node, child: Node) {
    && parent in mem && child in mem && parent != child
    && mem[child].parent == To(parent) && (mem[parent].left == To(child) || mem[parent].right == To(child))
    && (mem[parent].left == To(child) ==> mem[parent].right != To(child))
    && var sibling := if mem[parent].left == To(child) then mem[parent].right else mem[parent].left;
       var above := mem[parent].parent;
       && sibling != To(parent) && above != To(parent) && above != To(child)
       && mem[child].left != To(parent) && mem[child].left != To(child) && mem[child].right != To(parent)
         && mem[child].right != To(child)
       && (sibling.To? ==> sibling.node in mem && sibling != mem[child].left && sibling != mem[child].right)
       && (mem[child].left.To? ==> mem[child].left.node in mem)
         && (mem[child].right.To? ==> mem[child].right.node in mem)
       && (above.To? ==> above.node in mem)
  }

  lemma AroundPositions(mem: Memory, nodes: seq<Node>, p: nat, c: nat)
    requires Shaped(mem, nodes) && 0 < c < |nodes| && p == Up(c)
    ensures Around(mem, nodes[p], nodes[c]) && mem[nodes[p]].parent == At(nodes, Up(p))
  {
    hide Distinct;
    var s := if c % 2 == 1 then c + 1 else c - 1;
    assert PlacedAt(mem, nodes, p) && PlacedAt(mem, nodes, c);
    InMemory(mem, nodes, s);
    InMemory(mem, nodes, 2 * c + 1);
    InMemory(mem, nodes, 2 * c + 2);
    InMemory(mem, nodes, Up(p));
    Apart(nodes, p, c);
    Apart(nodes, c, p);
    Apart(nodes, p, s);
    Apart(nodes, c, s);
    Apart(nodes, p, 2 * c + 1);
    Apart(nodes, c, 2 * c + 1);
    Apart(nodes, p, 2 * c + 2);
    Apart(nodes, c, 2 * c + 2);
    Apart(nodes, p, Up(p));
    Apart(nodes, c, Up(p));
    if s < |nodes| {
      Apart(nodes, s, 2 * c + 1);
      Apart(nodes, s, 2 * c + 2);
    }
  }

  function ParentsSet(mem: Memory, parent: Node, child: Node, sibling: Ref, n: Node): Links
    requires n in mem && parent in mem
  {
    mem[n].(parent := if To(n) == mem[parent].left || To(n) == mem[parent].right then To(parent)
      else if To(n) == sibling then To(child) else mem[n].parent)
  }

  function AboveSet(mem: Memory, parent: Node, child: Node, n: Node): Links
    requires n in mem && child in mem
  {
    if To(n) != mem[child].parent then mem[n] else if mem[n].left == To(parent) then mem[n].(left := To(child))
        else mem[n].(right := To(child))
  }

  /** The three rounds of writes together are the exchange. */
  lemma ExchangeSteps(mem: Memory, one: Memory, two: Memory, three: Memory, parent: Node, child: Node, sibling: Ref)
    requires Around(mem, parent, child) && mem.Keys == one.Keys == two.Keys == three.Keys
    requires sibling == if mem[parent].left == To(child) then mem[parent].right else mem[parent].left
    requires forall n :: n in mem && n != parent && n != child ==> one[n] == mem[n]
    requires one[parent] == Links(mem[child].left, mem[child].right, To(child))
    requires one[child] == if mem[parent].left ==
        To(child) then Links(To(parent), mem[parent].right, mem[parent].parent)
      else Links(mem[parent].left, To(parent), mem[parent].parent)
    requires forall n :: n in one ==> two[n] == ParentsSet(one, parent, child, sibling, n)
    requires forall n :: n in two ==> three[n] == AboveSet(two, parent, child, n)
    ensures forall n :: n in mem ==> three[n] == Exchanged(mem, parent, child, n)
  {
    forall n | n in mem ensures three[n] == Exchanged(mem, parent, child, n) {
      assert two[n] == ParentsSet(one, parent, child, sibling, n) && three[n] == AboveSet(two, parent, child, n);
      assert two[child] == ParentsSet(one, parent, child, sibling, child);
    }
  }

  // The path to a position

  function Shift(n: nat, k: nat): nat {
    if k == 0 then n else Shift(n, k - 1) / 2
  }

  /** The last k bits of n, the lowest first as the highest. */
  function Reversed(n: nat, k: nat): nat {
    if k == 0 then 0 else Reversed(n, k - 1) * 2 + Shift(n, k - 1) % 2
  }

  /** The loop that computes the path: k bits lead from the root to position n. */
  method PathTo(target: nat) returns (path: nat, k: nat)
    requires target > 0
    ensures path == Reversed(target, k) && Shift(target, k) == 1
  {
    var n := target;
    path, k := 0, 0;
    while n >= 2
      invariant n == Shift(target, k) && path == Reversed(target, k) && n > 0
      decreases n
    {
      path := path * 2 + n % 2;
      n, k := n / 2, k + 1;
    }
  }

  lemma {:induction false} ShiftSmaller(n: nat, k: nat)
    ensures Shift(n, k) <= n && (k > 0 ==> Shift(n, k) <= n / 2)
  {
    if k > 0 { ShiftSmaller(n, k - 1); }
  }

  /** A pointer variable: the root pointer or a child pointer of a node. */
  datatype Slot = Root | LeftOf(node: Node) | RightOf(node: Node)

  /** The slot of position i. */
  function SlotOf(nodes: seq<Node>, i: nat): Slot
    requires i <= |nodes|
  {
    if i == 0 then Root else if i % 2 == 1 then LeftOf(nodes[Up(i)]) else RightOf(nodes[Up(i)])
  }

  /** The links of m after a store to the slot. */
  function Stored(links: Links, s: Slot, r: Ref, m: Node): Links {
    if s == LeftOf(m) then links.(left := r) else if s == RightOf(m) then links.(right := r) else links
  }

  // Growing, shrinking and replacing

  lemma AppendShape(mem: Memory, nodes: seq<Node>, n: Node, after: Memory)
    requires Shaped(mem, nodes) && n !in nodes && after.Keys == mem.Keys + {n}
    requires after[n] == Links(Null, Null, At(nodes, Up(|nodes|)))
    requires forall m :: m in nodes && m in mem ==> after[m] == Stored(mem[m], SlotOf(nodes, |nodes|), To(n), m)
    ensures Shaped(after, nodes + [n])
  {
    var now := nodes + [n];
    forall i | 0 <= i < |now| ensures PlacedAt(after, now, i) {
      if i < |nodes| { AppendedPlace(mem, nodes, n, after, i); }
    }
  }

  lemma AppendedPlace(mem: Memory, nodes: seq<Node>, n: Node, after: Memory, i: nat)
    requires Distinct(nodes) && PlacedAt(mem, nodes, i) && nodes[i] in after
    requires after[nodes[i]] == Stored(mem[nodes[i]], SlotOf(nodes, |nodes|), To(n), nodes[i])
    ensures PlacedAt(after, nodes + [n], i)
  {
    Apart(nodes, i, Up(|nodes|));
  }

  lemma LastAlone(mem: Memory, nodes: seq<Node>)
    requires Shaped(mem, nodes) && nodes != []
    ensures nodes[|nodes| - 1] !in nodes[..|nodes| - 1]
  {
  }

  lemma DropShape(mem: Memory, nodes: seq<Node>, after: Memory)
    requires Shaped(mem, nodes) && nodes != [] && after.Keys == mem.Keys
    requires forall m :: m in nodes && m in mem ==> after[m] == Stored(mem[m], SlotOf(nodes, |nodes| - 1), Null, m)
    ensures Shaped(after, nodes[..|nodes| - 1])
  {
    var now := nodes[..|nodes| - 1];
    forall i | 0 <= i < |now| ensures PlacedAt(after, now, i) {
      assert PlacedAt(mem, nodes, i);
      Apart(nodes, i, Up(|nodes| - 1));
    }
  }

  /** The links of m once `n` stands where `gone` stood. */
  function Replaced(mem: Memory, gone: Node, n: Node, m: Node): Links
    requires gone in mem && m in mem
  {
    var links, was := mem[m], mem[gone];
    if m == n then was
    else
      Links(if To(m) == was.parent && links.left == To(gone) then To(n) else links.left,
            if To(m) == was.parent && links.left != To(gone) then To(n) else links.right,
            if To(m) == was.left || To(m) == was.right then To(n) else links.parent)
  }

  lemma ReplaceShape(mem: Memory, nodes: seq<Node>, r: nat, n: Node, after: Memory)
    requires Shaped(mem, nodes) && r < |nodes| && n !in nodes && n in mem && nodes[r] in mem && after.Keys == mem.Keys
    requires forall m :: m in mem ==> after[m] == Replaced(mem, nodes[r], n, m)
    ensures Shaped(after, nodes[r := n])
  {
    var now := nodes[r := n];
    assert PlacedAt(mem, nodes, r);
    forall i | 0 <= i < |now| ensures PlacedAt(after, now, i) {
      assert PlacedAt(mem, nodes, i);
      Apart(nodes, i, r);
      Apart(nodes, i, Up(r));
      Apart(nodes, i, 2 * r + 1);
      Apart(nodes, i, 2 * r + 2);
      Apart(nodes, r, 2 * i + 1);
      Apart(nodes, r, 2 * i + 2);
      Apart(nodes, r, Up(i));
    }
  }

  ghost predicate OneAround(mem: Memory, gone: Node, n: Node) {
    && gone in mem && n in mem && n != gone
    && var l := mem[gone];
       && l.left != To(gone) && l.right != To(gone) && l.parent != To(gone)
       && l.left != To(n) && l.right != To(n) && l.parent != To(n)
       && (l.left.To? ==> l.left.node in mem && l.left != l.right && l.left != l.parent)
       && (l.right.To? ==> l.right.node in mem && l.right != l.parent)
       && (l.parent.To? ==> l.parent.node in mem)
  }

  lemma InMemory(mem: Memory, nodes: seq<Node>, i: int)
    requires Shaped(mem, nodes)
    ensures At(nodes, i).To? ==> At(nodes, i).node in mem && At(nodes, i).node in nodes
  {
    if 0 <= i < |nodes| { assert PlacedAt(mem, nodes, i); }
  }

  lemma ReplaceSteps(mem: Memory, one: Memory, two: Memory, three: Memory, gone: Node, n: Node)
    requires OneAround(mem, gone, n) && mem.Keys == one.Keys == two.Keys == three.Keys && one == mem[n := mem[gone]]
    requires forall m :: m in one ==> two[m] == ParentsSet(one, n, n, Null, m)
    requires forall m :: m in two ==> three[m] == AboveSet(two, gone, n, m)
    ensures forall m :: m in mem ==> three[m] == Replaced(mem, gone, n, m)
  {
    forall m | m in mem ensures three[m] == Replaced(mem, gone, n, m) {
      assert two[m] == ParentsSet(one, n, n, Null, m) && three[m] == AboveSet(two, gone, n, m);
      assert two[n] == ParentsSet(one, n, n, Null, n);
    }
  }

  lemma AroundOne(mem: Memory, nodes: seq<Node>, r: nat, n: Node)
    requires Shaped(mem, nodes) && r < |nodes| && n !in nodes && n in mem
    ensures OneAround(mem, nodes[r], n) && mem[nodes[r]] == Wanted(nodes, r)
  {
    hide Distinct;
    assert PlacedAt(mem, nodes, r);
    InMemory(mem, nodes, 2 * r + 1);
    InMemory(mem, nodes, 2 * r + 2);
    InMemory(mem, nodes, Up(r));
    Apart(nodes, r, 2 * r + 1);
    Apart(nodes, r, 2 * r + 2);
    Apart(nodes, r, Up(r));
    if 2 * r + 1 < |nodes| {
      Apart(nodes, 2 * r + 1, 2 * r + 2);
      Apart(nodes, 2 * r + 1, Up(r));
    }
    if 2 * r + 2 < |nodes| { Apart(nodes, 2 * r + 2, Up(r)); }
  }

  // Order

  type Ranks = map<Node, Rank>

  function RankOf(ranks: Ranks, n: Node): Rank {
    if n in ranks then ranks[n] else Rank(0, 0)
  }

  /** The node at i does not come before the node above it. */
  ghost predicate OrderAt(ranks: Ranks, nodes: seq<Node>, i: nat) {
    0 < i < |nodes| ==> !RankLess(RankOf(ranks, nodes[i]), RankOf(ranks, nodes[Up(i)]))
  }

  ghost predicate Ordered(ranks: Ranks, nodes: seq<Node>) {
    forall i :: 0 <= i < |nodes| ==> OrderAt(ranks, nodes, i)
  }

  /** The nodes below i do not come before the node above i. */
  ghost predicate BelowOk(ranks: Ranks, nodes: seq<Node>, i: nat, j: nat) {
    0 < i && j < |nodes| && Up(j) == i ==> !RankLess(RankOf(ranks, nodes[j]), RankOf(ranks, nodes[Up(i)]))
  }

  /** In order but for the node at i, which may come before the one above it. */
  ghost predicate MayRise(ranks: Ranks, nodes: seq<Node>, i: nat) {
    && i < |nodes|
    && (forall j :: 0 <= j < |nodes| && j != i ==> OrderAt(ranks, nodes, j))
    && (forall j :: 0 <= j < |nodes| ==> BelowOk(ranks, nodes, i, j))
  }

  /** In order but for the node at i, which may come after those below it, and if `rising` before
      the one above it. */
  ghost predicate MaySink(ranks: Ranks, nodes: seq<Node>, i: nat, rising: bool) {
    && i < |nodes|
    && (forall j :: 0 <= j < |nodes| && Up(j) != i && (j == i ==> !rising) ==> OrderAt(ranks, nodes, j))
    && (forall j :: 0 <= j < |nodes| ==> BelowOk(ranks, nodes, i, j))
  }

  /** The first node comes before all others. */
  lemma {:induction false} FirstIsLeast(ranks: Ranks, nodes: seq<Node>, i: nat)
    requires Ordered(ranks, nodes) && i < |nodes|
    ensures !RankLess(RankOf(ranks, nodes[i]), RankOf(ranks, nodes[0]))
    decreases i
  {
    if i > 0 {
      assert OrderAt(ranks, nodes, i);
      FirstIsLeast(ranks, nodes, Up(i));
    }
  }

  lemma Risen(ranks: Ranks, nodes: seq<Node>, p: nat, c: nat)
    requires MayRise(ranks, nodes, c) && 0 < c && p == Up(c)
    requires RankLess(RankOf(ranks, nodes[c]), RankOf(ranks, nodes[p]))
    ensures MayRise(ranks, Swapped(nodes, p, c), p)
  {
    var now := Swapped(nodes, p, c);
    forall j | 0 <= j < |now| && j != p ensures OrderAt(ranks, now, j) {
      assert j != c ==> OrderAt(ranks, nodes, j);
      assert BelowOk(ranks, nodes, c, j);
    }
    forall j | 0 <= j < |now| ensures BelowOk(ranks, now, p, j) {
      assert p != c ==> OrderAt(ranks, nodes, p);
      assert j != c ==> OrderAt(ranks, nodes, j);
    }
  }

  lemma Sunk(ranks: Ranks, nodes: seq<Node>, p: nat, c: nat, rising: bool)
    requires MaySink(ranks, nodes, p, rising) && 0 < c < |nodes| && p == Up(c)
    requires RankLess(RankOf(ranks, nodes[c]), RankOf(ranks, nodes[p]))
    requires forall j :: 0 < j < |nodes| && Up(j) == p ==> !RankLess(RankOf(ranks, nodes[j]), RankOf(ranks, nodes[c]))
    ensures MaySink(ranks, Swapped(nodes, p, c), c, false)
  {
    var now := Swapped(nodes, p, c);
    forall j | 0 <= j < |now| && Up(j) != c ensures OrderAt(ranks, now, j) {
      assert BelowOk(ranks, nodes, p, c);
      assert Up(j) != p && j != p ==> OrderAt(ranks, nodes, j);
    }
    forall j | 0 <= j < |now| ensures BelowOk(ranks, now, c, j) {
      assert Up(j) == c && j > 0 ==> OrderAt(ranks, nodes, j);
    }
  }

  lemma OthersShaped(mem: Memory, after: Memory, nodes: seq<Node>)
    requires Shaped(mem, nodes) && forall m :: m in nodes && m in mem ==> m in after && after[m] == mem[m]
    ensures Shaped(after, nodes)
  {
    forall i | 0 <= i < |nodes| ensures PlacedAt(after, nodes, i) {
      assert PlacedAt(mem, nodes, i);
    }
  }

  lemma AppendedMayRise(ranks: Ranks, nodes: seq<Node>, n: Node)
    requires Ordered(ranks, nodes)
    ensures MayRise(ranks, nodes + [n], |nodes|)
  {
    var now := nodes + [n];
    forall j | 0 <= j < |nodes| ensures OrderAt(ranks, now, j) {
      assert OrderAt(ranks, nodes, j);
    }
  }

  lemma AppendedSet(nodes: seq<Node>, n: Node)
    ensures forall m :: m in nodes + [n] <==> m in nodes || m == n
  {
  }

  lemma RisenOrdered(ranks: Ranks, nodes: seq<Node>, i: nat)
    requires MayRise(ranks, nodes, i)
    requires Up(i) >= 0 ==> !RankLess(RankOf(ranks, nodes[i]), RankOf(ranks, nodes[Up(i)]))
    ensures Ordered(ranks, nodes)
  {
  }

  lemma SinkRange(ranks: Ranks, nodes: seq<Node>, i: nat, rising: bool)
    requires MaySink(ranks, nodes, i, rising)
    ensures i < |nodes|
  {
  }

  lemma NothingSinks(ranks: Ranks, nodes: seq<Node>, i: nat, rising: bool)
    requires MaySink(ranks, nodes, i, rising)
    requires forall j :: 0 < j < |nodes| && Up(j) == i ==> !RankLess(RankOf(ranks, nodes[j]), RankOf(ranks, nodes[i]))
    ensures MayRise(ranks, nodes, i)
  {
  }

  lemma DroppedSet(nodes: seq<Node>)
    requires nodes != []
    ensures forall m :: m in nodes <==> m in nodes[..|nodes| - 1] || m == nodes[|nodes| - 1]
  {
    assert nodes == nodes[..|nodes| - 1] + [nodes[|nodes| - 1]];
  }

  lemma DroppedOrder(ranks: Ranks, nodes: seq<Node>)
    requires Ordered(ranks, nodes) && nodes != []
    ensures Ordered(ranks, nodes[..|nodes| - 1])
  {
    var now := nodes[..|nodes| - 1];
    forall i | 0 <= i < |now| ensures OrderAt(ranks, now, i) {
      assert OrderAt(ranks, nodes, i);
    }
  }

  lemma ReplacedSet(nodes: seq<Node>, r: nat, n: Node)
    requires r < |nodes| && Distinct(nodes) && n !in nodes
    ensures forall m :: m in nodes[r := n] <==> (m in nodes && m != nodes[r]) || m == n
  {
    var now := nodes[r := n];
    assert now[r] == n;
    forall m | m in nodes && m != nodes[r] ensures m in now {
      var i :| 0 <= i < |nodes| && nodes[i] == m;
      assert now[i] == m;
    }
  }

  lemma ReplacedMaySink(ranks: Ranks, nodes: seq<Node>, r: nat, n: Node)
    requires Ordered(ranks, nodes) && r < |nodes|
    ensures MaySink(ranks, nodes[r := n], r, true)
  {
    var now := nodes[r := n];
    forall j | 0 <= j < |now| && Up(j) != r && j != r ensures OrderAt(ranks, now, j) {
      assert OrderAt(ranks, nodes, j);
    }
    forall j | 0 <= j < |now| ensures BelowOk(ranks, now, r, j) {
      assert OrderAt(ranks, nodes, j) && OrderAt(ranks, nodes, r);
    }
  }

  class Heap {
    var min: Ref
    var nelts: nat
    var mem: Memory
    ghost var nodes: seq<Node>

    /** The rank each timer has while it is in the heap. */
    var ranks: Ranks

    ghost predicate ShapeOk()
      reads this
    {
      nelts == |nodes| && min == At(nodes, 0) && Shaped(mem, nodes)
    }

    ghost predicate Valid()
      reads this
    {
      ShapeOk() && Ordered(ranks, nodes)
    }

    constructor ()
      ensures Valid() && nodes == []
    {
      min, nelts, mem, nodes, ranks := Null, 0, map[], [], map[];
    }

    function LessThan(a: Node, b: Node): bool
      reads this
    {
      RankLess(RankOf(ranks, a), RankOf(ranks, b))
    }

    function Deref(s: Slot): Ref
      requires s.Root? || s.node in mem
      reads this
    {
      match s
      case Root => min
      case LeftOf(n) => mem[n].left
      case RightOf(n) => mem[n].right
    }

    method Store(s: Slot, r: Ref)
      requires s.Root? || s.node in mem
      modifies this`min, this`mem
      ensures min == if s.Root? then r else old(min)
      ensures mem.Keys == old(mem).Keys && forall m :: m in mem ==> mem[m] == Stored(old(mem)[m], s, r, m)
    {
      match s
      case Root => min := r;
      case LeftOf(n) => mem := SetLeft(mem, n, r);
      case RightOf(n) => mem := SetRight(mem, n, r);
    }

    /** The pointer variable is that of position i. */
    ghost predicate IsSlot(s: Slot, i: nat)
      reads this
    {
      i <= |nodes| && s == SlotOf(nodes, i) && (s.Root? || s.node in mem) && Deref(s) == At(nodes, i)
    }

    /** Follows the path to position `target`, counted from one. */
    method Walk(target: nat) returns (parent: Slot, child: Slot)
      requires ShapeOk() && 1 <= target <= nelts + 1
      ensures IsSlot(child, target - 1) && IsSlot(parent, if target == 1 then 0 else Up(target - 1))
    {
      hide Distinct, IsSlot;
      var path, k := PathTo(target);
      parent, child := Root, Root;
      RootSlot();
      while k > 0
        invariant path == Reversed(target, k) && 1 <= Shift(target, k) <= target
        invariant IsSlot(child, Shift(target, k) - 1)
        invariant IsSlot(parent, if Shift(target, k) == 1 then 0 else Up(Shift(target, k) - 1))
        decreases k
      {
        ghost var at := Shift(target, k);
        ShiftSmaller(target, k);
        ShiftSmaller(target, k - 1);
        SlotBelow(child, at - 1);
        parent := child;
        child := if path % 2 == 1 then RightOf(Deref(child).node) else LeftOf(Deref(child).node);
        path, k := path / 2, k - 1;
      }
    }

    lemma RootSlot()
      requires ShapeOk()
      ensures IsSlot(Root, 0)
    {
    }

    lemma SlotBelow(s: Slot, i: nat)
      requires ShapeOk() && IsSlot(s, i) && i < nelts
      ensures (s.Root? || s.node in mem) && Deref(s) == To(nodes[i])
      ensures 2 * i + 1 <= nelts ==> IsSlot(LeftOf(nodes[i]), 2 * i + 1)
      ensures 2 * i + 2 <= nelts ==> IsSlot(RightOf(nodes[i]), 2 * i + 2)
    {
      assert PlacedAt(mem, nodes, i);
    }

    /** heap_node_swap: a node and one of its children change places. */
    method Swap(parent: Node, child: Node, ghost p: nat, ghost c: nat)
      requires ShapeOk() && 0 < c < |nodes| && p == Up(c) && nodes[p] == parent && nodes[c] == child
      modifies this`min, this`mem, this`nodes
      ensures ShapeOk() && nodes == Swapped(old(nodes), p, c) && mem.Keys == old(mem).Keys
    {
      hide Shaped;
      AroundPositions(mem, nodes, p, c);
      ghost var was := mem;
      Exchange(parent, child);
      ExchangedShape(was, mem, nodes, p, c);
      nodes := Swapped(nodes, p, c);
    }

    /** The pointer writes of heap_node_swap. */
    method Exchange(parent: Node, child: Node)
      requires Around(mem, parent, child)
      modifies this`min, this`mem
      ensures mem.Keys == old(mem).Keys && forall n :: n in mem ==> mem[n] == Exchanged(old(mem), parent, child, n)
      ensures min == if old(mem)[parent].parent == Null then To(child) else old(min)
    {
      ghost var zero := mem;
      var sibling := SwapContents(parent, child);
      ghost var one := mem;
      SetParents(parent, child, sibling);
      ghost var two := mem;
      SetAbove(parent, child);
      ExchangeSteps(zero, one, two, mem, parent, child, sibling);
    }

    /** The two structures change contents and point to each other. */
    method SwapContents(parent: Node, child: Node) returns (sibling: Ref)
      requires parent in mem && child in mem && parent != child
      modifies this`mem
      ensures mem.Keys == old(mem).Keys && forall n :: n in mem && n != parent && n != child ==> mem[n] == old(mem)[n]
      ensures mem[parent] == Links(old(mem)[child].left, old(mem)[child].right, To(child))
      ensures var was := old(mem)[parent];
        if was.left == To(child) then mem[child] == Links(To(parent), was.right, was.parent) && sibling == was.right
        else mem[child] == Links(was.left, To(parent), was.parent) && sibling == was.left
    {
      mem := mem[parent := mem[child]][child := mem[parent]];
      mem := SetParent(mem, To(parent), To(child));
      if mem[child].left == To(child) {
        mem := SetLeft(mem, child, To(parent));
        sibling := mem[child].right;
      } else {
        mem := SetRight(mem, child, To(parent));
        sibling := mem[child].left;
      }
    }

    method SetParents(parent: Node, child: Node, sibling: Ref)
      requires parent in mem && (sibling.To? ==> sibling.node in mem)
      requires (mem[parent].left.To? ==> mem[parent].left.node in mem)
      requires (mem[parent].right.To? ==> mem[parent].right.node in mem)
      modifies this`mem
      ensures mem.Keys == old(mem).Keys && forall n :: n in mem ==>
          mem[n] == ParentsSet(old(mem), parent, child, sibling, n)
    {
      hide SetParent;
      mem := SetParent(mem, sibling, To(child));
      mem := SetParent(mem, mem[parent].left, To(parent));
      mem := SetParent(mem, mem[parent].right, To(parent));
    }

    method SetAbove(parent: Node, child: Node)
      requires child in mem && (mem[child].parent.To? ==> mem[child].parent.node in mem)
      modifies this`min, this`mem
      ensures mem.Keys == old(mem).Keys && forall n :: n in mem ==> mem[n] == AboveSet(old(mem), parent, child, n)
      ensures min == if old(mem)[child].parent == Null then To(child) else old(min)
    {
      if mem[child].parent == Null {
        min := To(child);
      } else if mem[mem[child].parent.node].left == To(parent) {
        mem := SetLeft(mem, mem[child].parent.node, To(child));
      } else {
        mem := SetRight(mem, mem[child].parent.node, To(child));
      }
    }

    // Inserting

    /** heap_insert: the node goes to the next free position and rises while it comes before the
        one above it. */
    method Insert(n: Node, rank: Rank)
      requires Valid() && n !in nodes
      modifies this
      ensures Valid() && |nodes| == |old(nodes)| + 1 && ranks == old(ranks)[n := rank]
      ensures forall m :: m in nodes <==> m in old(nodes) || m == n
    {
      RanksKept(n, rank);
      ranks := ranks[n := rank];
      Append(n);
      ghost var i := nelts - 1;
      AppendedMayRise(ranks, nodes[..i], n);
      ghost var all := nodes;
      AppendedSet(all[..i], n);
      Rise(n, i);
    }

    lemma RanksKept(n: Node, rank: Rank)
      requires Ordered(ranks, nodes) && n !in nodes
      ensures Ordered(ranks[n := rank], nodes)
    {
      var now := ranks[n := rank];
      forall i | 0 <= i < |nodes| ensures OrderAt(now, nodes, i) {
        assert OrderAt(ranks, nodes, i);
      }
    }

    /** Links the node at the next free position. */
    method Append(n: Node)
      requires ShapeOk() && n !in nodes
      modifies this`min, this`mem, this`nelts, this`nodes
      ensures ShapeOk() && nodes == old(nodes) + [n]
    {
      hide Distinct;
      mem := mem[n := Links(Null, Null, Null)];
      OthersShaped(old(mem), mem, nodes);
      var parent, child := Walk(nelts + 1);
      ghost var was := mem;
      mem := mem[n := mem[n].(parent := Deref(parent))];
      OthersShaped(was, mem, nodes);
      ghost var linked := mem;
      Store(child, To(n));
      NoSlotOfItself(n);
      AppendShape(linked, nodes, n, mem);
      nelts := nelts + 1;
      nodes := nodes + [n];
    }

    lemma NoSlotOfItself(n: Node)
      requires n !in nodes
      ensures SlotOf(nodes, |nodes|) != LeftOf(n) && SlotOf(nodes, |nodes|) != RightOf(n)
    {
    }

    /** Moves the node up while it comes before the one above it. */
    method Rise(n: Node, ghost i: nat)
      requires ShapeOk() && MayRise(ranks, nodes, i) && nodes[i] == n
      modifies this`min, this`mem, this`nodes
      ensures Valid() && |nodes| == |old(nodes)| && forall m :: m in nodes <==> m in old(nodes)
    {
      hide Distinct, Shaped;
      ghost var at: int := i;
      LinksAt(at);
      while mem[n].parent.To? && LessThan(n, mem[n].parent.node)
        invariant ShapeOk() && 0 <= at < |nodes| && nodes[at] == n && n in mem && mem[n] == Wanted(nodes, at)
        invariant MayRise(ranks, nodes, at) && |nodes| == |old(nodes)|
        invariant forall m :: m in nodes <==> m in old(nodes)
        decreases at
      {
        ghost var was := nodes;
        Risen(ranks, nodes, Up(at), at);
        SwappedSet(nodes, Up(at), at);
        Swap(mem[n].parent.node, n, Up(at), at);
        at := Up(at);
        LinksAt(at);
      }
      RisenOrdered(ranks, nodes, at);
    }

    lemma LinksAt(i: nat)
      requires ShapeOk() && i < |nodes|
      ensures nodes[i] in mem && mem[nodes[i]] == Wanted(nodes, i)
    {
      assert PlacedAt(mem, nodes, i);
    }

    /** The node itself or the one below it that comes before it and before the other. */
    method Smallest(n: Node, ghost i: nat) returns (smallest: Node, ghost c: nat)
      requires ShapeOk() && i < |nodes| && nodes[i] == n && n in mem
      ensures c < |nodes| && smallest == nodes[c] && (c == i || Up(c) == i)
      ensures c != i ==> LessThan(smallest, n)
      ensures forall j :: 0 < j < |nodes| && Up(j) == i ==> !LessThan(nodes[j], smallest)
    {
      LinksAt(i);
      smallest, c := n, i;
      if mem[n].left.To? && LessThan(mem[n].left.node, smallest) {
        smallest, c := mem[n].left.node, 2 * i + 1;
      }
      if mem[n].right.To? && LessThan(mem[n].right.node, smallest) {
        smallest, c := mem[n].right.node, 2 * i + 2;
      }
      forall j | 0 < j < |nodes| && Up(j) == i ensures !LessThan(nodes[j], smallest) {
        assert j == 2 * i + 1 || j == 2 * i + 2;
      }
    }

    /** Moves the node down while one below it comes before it. */
    method Sink(n: Node, ghost i: nat) returns (ghost at: nat)
      requires ShapeOk() && MaySink(ranks, nodes, i, true) && nodes[i] == n
      modifies this`min, this`mem, this`nodes
      ensures ShapeOk() && |nodes| == |old(nodes)| && (forall m :: m in nodes <==> m in old(nodes))
      ensures MayRise(ranks, nodes, at) && nodes[at] == n
    {
      hide Distinct, Shaped, MayRise, MaySink;
      at := i;
      ghost var rising := true;
      SinkRange(ranks, nodes, at, rising);
      LinksAt(at);
      while true
        invariant ShapeOk() && at < |nodes| && nodes[at] == n && n in mem
        invariant MaySink(ranks, nodes, at, rising) && |nodes| == |old(nodes)|
        invariant forall m :: m in nodes <==> m in old(nodes)
        decreases |nodes| - at
      {
        ghost var c;
        var smallest;
        smallest, c := Smallest(n, at);
        if smallest == n {
          DistinctAt(at, c);
          NothingSinks(ranks, nodes, at, rising);
          return;
        }
        Sunk(ranks, nodes, at, c, rising);
        SwappedSet(nodes, at, c);
        Swap(n, smallest, at, c);
        at, rising := c, false;
        LinksAt(at);
      }
    }

    lemma DistinctAt(i: nat, j: nat)
      requires ShapeOk() && i < |nodes| && j < |nodes| && nodes[i] == nodes[j]
      ensures i == j
    {
    }

    // Removing

    /** heap_remove: the last node takes the place of the one removed and sinks or rises. */
    method Remove(n: Node)
      requires Valid() && (nodes == [] || n in nodes)
      modifies this`min, this`mem, this`nelts, this`nodes
      ensures Valid() && (forall m :: m in nodes <==> m in old(nodes) && m != n)
      ensures |nodes| == if old(nodes) == [] then 0 else |old(nodes)| - 1
    {
      hide Distinct, Shaped, Ordered, MayRise, MaySink;
      if nelts == 0 { return; }
      ghost var was := nodes;
      var child := DropLast();
      DroppedSet(was);
      DroppedOrder(ranks, was);
      if child == n {
        // The root pointer is null already if it was the only node.
        return;
      }
      ghost var r := IndexOf(n);
      ghost var some := nodes;
      DistinctNodes();
      Replace(n, child, r);
      ReplacedSet(some, r, child);
      ReplacedMaySink(ranks, some, r, child);
      r := Sink(child, r);
      Rise(child, r);
    }

    lemma DistinctNodes()
      requires ShapeOk()
      ensures Distinct(nodes)
    {
    }

    ghost method IndexOf(n: Node) returns (r: nat)
      requires n in nodes
      ensures r < |nodes| && nodes[r] == n
    {
      r :| 0 <= r < |nodes| && nodes[r] == n;
    }

    /** Unlinks the node at the last position. */
    method DropLast() returns (last: Node)
      requires ShapeOk() && nelts > 0
      modifies this`min, this`mem, this`nelts, this`nodes
      ensures ShapeOk() && old(nodes) == nodes + [last] && mem.Keys == old(mem).Keys && last !in nodes && last in mem
    {
      hide Distinct, Shaped;
      ghost var was := mem;
      var parent, max := Walk(nelts);
      LinksAt(|nodes| - 1);
      LastAlone(mem, nodes);
      last := Deref(max).node;
      Store(max, Null);
      DropShape(was, nodes, mem);
      nelts := nelts - 1;
      nodes := nodes[..|nodes| - 1];
    }

    /** Puts the node `n` where `gone` stands. */
    method Replace(gone: Node, n: Node, ghost r: nat)
      requires ShapeOk() && r < |nodes| && nodes[r] == gone && n !in nodes && n in mem
      modifies this`min, this`mem, this`nodes
      ensures ShapeOk() && nodes == old(nodes)[r := n]
    {
      hide Distinct, Shaped;
      LinksAt(r);
      AroundOne(mem, nodes, r, n);
      ghost var was := mem;
      SetLinks(gone, n);
      ReplaceShape(was, nodes, r, n, mem);
      nodes := nodes[r := n];
    }

    /** The pointer writes of the replacement. */
    method SetLinks(gone: Node, n: Node)
      requires OneAround(mem, gone, n)
      modifies this`min, this`mem
      ensures mem.Keys == old(mem).Keys && forall m :: m in mem ==> mem[m] == Replaced(old(mem), gone, n, m)
      ensures min == if old(mem)[gone].parent == Null then To(n) else old(min)
    {
      ghost var zero := mem;
      mem := mem[n := mem[gone]];
      ghost var one := mem;
      SetParents(n, n, Null);
      ghost var two := mem;
      SetAbove(gone, n);
      ReplaceSteps(zero, one, two, mem, gone, n);
    }
  }
}
