// The blinking characters of fish/blink.S and fish/fish.c as values: a pool of 2000
// nodes, the order in which the list visits those in use, the countdown of each, and the
// characters on the screen.
module BlinkModel {
  import opened Console
  import opened Words

  const POOL := 2000

  // A struct mp1_blink_struct without its link. Location 0 marks a free node.
  datatype Node = Node(
    location: word, onChar: int, offChar: int, onLength: word, offLength: word, countdown: word, status: word)

  const FREE := Node(0, 0, 0, 0, 0, 0, 0)

  datatype Blinks = Blinks(order: seq<nat>, nodes: seq<Node>, screen: seq<int>)

  ghost predicate Distinct(order: seq<nat>) {
    forall i, j :: 0 <= i < j < |order| ==> order[i] != order[j]
  }

  // The list visits each node in use exactly once, and no other.
  ghost predicate Agree(b: Blinks) {
    && |b.nodes| == POOL && |b.screen| == CELLS
    && (forall s :: 0 <= s < POOL ==> b.nodes[s].location < CELLS)
    && (forall i :: 0 <= i < |b.order| ==> b.order[i] < POOL)
    && Distinct(b.order)
    && forall s :: 0 <= s < POOL ==> (s in b.order <==> b.nodes[s].location != 0)
  }

  // ----- Operations -----

  // mp1_malloc: the least node whose location is 0.
  function LeastFree(nodes: seq<Node>, from: nat): (s: nat)
    requires from <= |nodes|
    ensures from <= s <= |nodes|
    ensures s < |nodes| ==> nodes[s].location == 0
    ensures forall i :: from <= i < s ==> nodes[i].location != 0
    decreases |nodes| - from
  {
    if from < |nodes| && nodes[from].location != 0 then LeastFree(nodes, from + 1) else from
  }

  function Started(n: Node): Node {
    n.(status := 1, countdown := n.onLength)
  }

  predicate CanAdd(b: Blinks, n: Node) {
    n.location < CELLS && LeastFree(b.nodes, 0) < |b.nodes|
  }

  function Added(b: Blinks, n: Node): Blinks
    requires |b.screen| == CELLS
  {
    if CanAdd(b, n) then
      var s := LeastFree(b.nodes, 0);
      Blinks([s] + b.order, b.nodes[s := Started(n)], b.screen[n.location := n.onChar])
    else b
  }

  // mp1_find_helper: the place on the list of the first node at a location.
  function Find(b: Blinks, location: word, from: nat): (i: nat)
    requires from <= |b.order| && forall i :: 0 <= i < |b.order| ==> b.order[i] < |b.nodes|
    ensures from <= i <= |b.order|
    ensures i < |b.order| ==> b.nodes[b.order[i]].location == location
    ensures forall j :: from <= j < i ==> b.nodes[b.order[j]].location != location
    decreases |b.order| - from
  {
    if from < |b.order| && b.nodes[b.order[from]].location != location then Find(b, location, from + 1) else from
  }

  ghost function Removed(b: Blinks, location: word): Blinks
    requires Agree(b)
  {
    var i := Find(b, location, 0);
    if i == |b.order| then b
    else Blinks(b.order[..i] + b.order[i + 1..], b.nodes[b.order[i] := FREE], b.screen)
  }

  function Timed(n: Node, like: Node): Node {
    n.(onLength := like.onLength, offLength := like.offLength, countdown := like.countdown, status := like.status)
  }

  // The character shown is the off character, whatever the status: the conditional
  // move at blink.S:282 tests a sign that is never set.
  ghost function Synced(b: Blinks, first: word, second: word): Blinks
    requires Agree(b)
  {
    var i, j := Find(b, first, 0), Find(b, second, 0);
    if i == |b.order| || j == |b.order| then b
    else
      var n := b.nodes[b.order[j]];
      b.(nodes := b.nodes[b.order[j] := Timed(n, b.nodes[b.order[i]])], screen := b.screen[n.location := n.offChar])
  }

  // One node's share of mp1_rtc_tasklet, in signed 16-bit arithmetic.
  function Ticked(n: Node): Node {
    var c := if n.countdown == 0 then 0xFFFF else n.countdown - 1;
    if 0 < c < 0x8000 then n.(countdown := c)
    else if n.status % 2 == 1 then n.(countdown := n.offLength, status := n.status - 1)
    else n.(countdown := n.onLength, status := n.status + 1)
  }

  predicate Toggles(n: Node) {
    n.countdown <= 1 || n.countdown > 0x8000
  }

  function CharOf(n: Node): int {
    if n.status % 2 == 1 then n.onChar else n.offChar
  }

  // The screen after the tasklet has visited `order`: a node that toggles shows the
  // character of its new phase, and a later one at the same place covers it.
  function TickedScreen(screen: seq<int>, order: seq<nat>, nodes: seq<Node>): (r: seq<int>)
    requires forall i :: 0 <= i < |order| ==> order[i] < |nodes| && nodes[order[i]].location < |screen|
    ensures |r| == |screen|
  {
    if order == [] then screen
    else
      var before, n := TickedScreen(screen, order[..|order| - 1], nodes), nodes[order[|order| - 1]];
      if Toggles(n) then before[n.location := CharOf(Ticked(n))] else before
  }

  ghost function TickedAll(b: Blinks): Blinks
    requires Agree(b)
  {
    b.(nodes := seq(|b.nodes|, s requires 0 <= s < |b.nodes| => if s in b.order then Ticked(b.nodes[s]) else b.nodes[s]),
       screen := TickedScreen(b.screen, b.order, b.nodes))
  }

  // ----- The list and the pool agree -----

  lemma AddAgrees(b: Blinks, n: Node)
    requires Agree(b)
    ensures Agree(Added(b, n)) <==> n.location != 0 || !CanAdd(b, n)
  {
    if CanAdd(b, n) {
      var s, r := LeastFree(b.nodes, 0), Added(b, n);
      assert r.order[0] == s && s in r.order;
      forall i | 1 <= i < |r.order|
        ensures r.order[i] == b.order[i - 1] && r.order[i] != s
      {
        assert b.order[i - 1] in b.order;
      }
      forall u | 0 <= u < POOL && u != s
        ensures u in r.order <==> u in b.order
      {
      }
      assert r.nodes[s].location == n.location;
    }
  }

  // The node at location 0 is handed out again, and the list then visits it twice.
  lemma ZeroLocationBreaksTheList(b: Blinks, zero: Node, n: Node)
    requires Agree(b) && zero.location == 0 && CanAdd(b, zero) && n.location < CELLS
    ensures var r := Added(Added(b, zero), n);
      |r.order| >= 2 && r.order[0] == r.order[1] && !Distinct(r.order)
  {
    var mid := Added(b, zero);
    var s := LeastFree(b.nodes, 0);
    assert mid.nodes[s].location == 0;
    assert LeastFree(mid.nodes, 0) == s;
  }

  lemma RemoveAgrees(b: Blinks, location: word)
    requires Agree(b)
    ensures Agree(Removed(b, location))
  {
    var i := Find(b, location, 0);
    if i < |b.order| {
      forall u | 0 <= u < POOL
        ensures u in Removed(b, location).order <==> u in b.order && u != b.order[i]
      {
        WithoutOne(b.order, i, u);
      }
    }
  }

  lemma WithoutOne(order: seq<nat>, i: nat, u: nat)
    requires Distinct(order) && i < |order|
    ensures u in order[..i] + order[i + 1..] <==> u in order && u != order[i]
  {
    var rest := order[..i] + order[i + 1..];
    if u in order && u != order[i] {
      var k :| 0 <= k < |order| && order[k] == u;
      assert rest[if k < i then k else k - 1] == u;
    }
    if u in rest {
      var k :| 0 <= k < |rest| && rest[k] == u;
      assert order[if k < i then k else k + 1] == u;
    }
  }

  lemma SyncAndTickAgree(b: Blinks, first: word, second: word)
    requires Agree(b)
    ensures Agree(Synced(b, first, second)) && Agree(TickedAll(b))
  {
  }

  // ----- Conservation -----

  ghost function Upto(n: nat): (r: set<nat>)
    ensures |r| == n && forall s: nat :: s in r <==> s < n
  {
    if n == 0 then {} else Upto(n - 1) + {n - 1}
  }

  ghost function Elements(order: seq<nat>): (r: set<nat>)
    ensures forall s: nat :: s in r <==> s in order
  {
    set s | s in order
  }

  lemma {:induction false} DistinctSize(order: seq<nat>)
    requires Distinct(order)
    ensures |Elements(order)| == |order|
  {
    if order != [] {
      var init, last := order[..|order| - 1], order[|order| - 1];
      DistinctSize(init);
      assert last !in init;
      assert Elements(order) == Elements(init) + {last};
    }
  }

  ghost function FreeNodes(nodes: seq<Node>): (r: set<nat>)
    ensures forall s: nat :: s in r <==> s < |nodes| && nodes[s].location == 0
  {
    set s | s in Upto(|nodes|) && nodes[s].location == 0
  }

  // Free nodes and listed nodes are the pool, so an add fails for want of a node
  // exactly when 2000 nodes are listed.
  lemma FreePlusListed(b: Blinks)
    requires Agree(b)
    ensures |FreeNodes(b.nodes)| + |b.order| == POOL
    ensures LeastFree(b.nodes, 0) == POOL <==> |b.order| == POOL
  {
    DistinctSize(b.order);
    FreeOrListed(b);
    var free := FreeNodes(b.nodes);
    hide Agree, Elements, Upto;
    var s := LeastFree(b.nodes, 0);
    if s < POOL {
      assert s in free;
    } else {
      assert free == {};
    }
  }

  // An add succeeds exactly on the screen's 2000 locations while fewer than 2000 blink.
  lemma AddSucceedsExactlyWhen(b: Blinks, n: Node)
    requires Agree(b)
    ensures CanAdd(b, n) <==> n.location < 80 * 25 && |b.order| < 2000
  {
    FreePlusListed(b);
    FreePlusListedBound(b);
  }

  lemma FreePlusListedBound(b: Blinks)
    requires Agree(b)
    ensures |b.order| <= POOL
  {
    FreePlusListed(b);
  }

  lemma FreeOrListed(b: Blinks)
    requires Agree(b)
    ensures FreeNodes(b.nodes) + Elements(b.order) == Upto(|b.nodes|) && FreeNodes(b.nodes) !! Elements(b.order)
    ensures |FreeNodes(b.nodes)| + |Elements(b.order)| == POOL
  {
    hide Distinct, Upto;
    forall s: nat
      ensures s in FreeNodes(b.nodes) + Elements(b.order) <==> s in Upto(|b.nodes|)
    {
      if s in b.order {
        var i :| 0 <= i < |b.order| && b.order[i] == s;
      }
    }
  }

  lemma AddedIsFound(b: Blinks, n: Node)
    requires Agree(b) && CanAdd(b, n) && n.location != 0
    ensures var r := Added(b, n);
      && Find(r, n.location, 0) == 0
      && r.nodes[r.order[0]] == Started(n)
  {
  }

  // Removing what was just added restores the list and every node in use.
  lemma AddThenRemove(b: Blinks, n: Node)
    requires Agree(b) && CanAdd(b, n) && n.location != 0
    ensures Agree(Added(b, n))
    ensures var r := Removed(Added(b, n), n.location);
      && r.order == b.order
      && forall s :: s in b.order ==> r.nodes[s] == b.nodes[s]
  {
    AddAgrees(b, n);
    AddedIsFound(b, n);
    var r := Added(b, n);
    assert r.order[1..] == b.order;
  }

  // A sync leaves the second node showing its phase exactly when the first one is off.
  lemma SyncShowsPhaseExactlyWhen(b: Blinks, first: word, second: word)
    requires Agree(b) && Find(b, first, 0) < |b.order| && Find(b, second, 0) < |b.order|
    requires var n := b.nodes[b.order[Find(b, second, 0)]]; n.onChar != n.offChar
    ensures var r, s := Synced(b, first, second), b.order[Find(b, second, 0)];
      r.screen[r.nodes[s].location] == CharOf(r.nodes[s]) <==> b.nodes[b.order[Find(b, first, 0)]].status % 2 == 0
  {
  }

  // ----- The nodes at one location -----

  // The listed nodes at a location, in the list's order.
  function AtLocation(order: seq<nat>, nodes: seq<Node>, location: word): seq<nat>
    requires forall i :: 0 <= i < |order| ==> order[i] < |nodes|
  {
    if order == [] then []
    else
      var rest := AtLocation(order[1..], nodes, location);
      if nodes[order[0]].location == location then [order[0]] + rest else rest
  }

  lemma {:induction false} AtLocationJoin(a: seq<nat>, b: seq<nat>, nodes: seq<Node>, location: word)
    requires forall i :: 0 <= i < |a| ==> a[i] < |nodes|
    requires forall i :: 0 <= i < |b| ==> b[i] < |nodes|
    ensures AtLocation(a + b, nodes, location) == AtLocation(a, nodes, location) + AtLocation(b, nodes, location)
    decreases |a|
  {
    if a == [] {
      assert a + b == b;
    } else {
      assert (a + b)[0] == a[0] && (a + b)[1..] == a[1..] + b;
      AtLocationJoin(a[1..], b, nodes, location);
    }
  }

  lemma {:induction false} NoneAtLocation(order: seq<nat>, nodes: seq<Node>, location: word)
    requires forall i :: 0 <= i < |order| ==> order[i] < |nodes| && nodes[order[i]].location != location
    ensures AtLocation(order, nodes, location) == []
  {
    if order != [] {
      NoneAtLocation(order[1..], nodes, location);
    }
  }

  lemma {:induction false} SameAtLocation(order: seq<nat>, nodes: seq<Node>, nodes': seq<Node>, location: word)
    requires |nodes| == |nodes'| && forall i :: 0 <= i < |order| ==> order[i] < |nodes| && nodes'[order[i]] == nodes[order[i]]
    ensures AtLocation(order, nodes', location) == AtLocation(order, nodes, location)
  {
    if order != [] {
      SameAtLocation(order[1..], nodes, nodes', location);
    }
  }

  function ListedAt(b: Blinks, location: word): seq<nat>
    requires forall i :: 0 <= i < |b.order| ==> b.order[i] < |b.nodes|
  {
    AtLocation(b.order, b.nodes, location)
  }

  // A search finds the first of them.
  lemma FindIsFirst(b: Blinks, location: word)
    requires forall i :: 0 <= i < |b.order| ==> b.order[i] < |b.nodes|
    ensures var i := Find(b, location, 0);
      && (i < |b.order| <==> ListedAt(b, location) != [])
      && (i < |b.order| ==> b.order[i] == ListedAt(b, location)[0])
  {
    var i := Find(b, location, 0);
    NoneAtLocation(b.order[..i], b.nodes, location);
    AtLocationJoin(b.order[..i], b.order[i..], b.nodes, location);
    assert b.order == b.order[..i] + b.order[i..];
  }

  // A remove at a location where characters blink takes the first of them off the list,
  // wherever on the list it stands, and frees its node; the others keep their order, and
  // every other node and the screen stay. Where none blinks it changes nothing.
  lemma RemoveTakesFirst(b: Blinks, location: word)
    requires Agree(b)
    ensures ListedAt(b, location) == [] ==> Removed(b, location) == b
    ensures ListedAt(b, location) != [] ==>
      var r, s := Removed(b, location), ListedAt(b, location)[0];
      && (exists i :: 0 <= i < |b.order| && b.order[i] == s && r.order == b.order[..i] + b.order[i + 1..])
      && multiset(r.order) == multiset(b.order) - multiset{s} && s !in r.order
      && s < POOL && |r.nodes| == POOL && r.nodes[s].location == 0
      && (forall u :: 0 <= u < POOL && u != s ==> r.nodes[u] == b.nodes[u])
      && r.screen == b.screen
  {
    FindIsFirst(b, location);
    hide AtLocation;
    var i := Find(b, location, 0);
    if i < |b.order| {
      TakenOff(b, location, i);
    }
  }

  lemma TakenOff(b: Blinks, location: word, i: nat)
    requires Agree(b) && i == Find(b, location, 0) < |b.order|
    ensures var r, s := Removed(b, location), b.order[i];
      && r.order == b.order[..i] + b.order[i + 1..]
      && multiset(r.order) == multiset(b.order) - multiset{s} && s !in r.order
      && s < POOL && |r.nodes| == POOL && r.nodes[s].location == 0
      && (forall u :: 0 <= u < POOL && u != s ==> r.nodes[u] == b.nodes[u])
      && r.screen == b.screen
  {
    WithoutOne(b.order, i, b.order[i]);
    MultisetWithout(b.order, i);
    hide Distinct, Find;
  }

  lemma MultisetWithout(order: seq<nat>, i: nat)
    requires i < |order|
    ensures multiset(order[..i] + order[i + 1..]) == multiset(order) - multiset{order[i]}
  {
    assert order == order[..i] + [order[i]] + order[i + 1..];
  }

  // So the location loses that node and no other does.
  lemma RemoveShortens(b: Blinks, location: word, other: word)
    requires Agree(b)
    ensures forall i :: 0 <= i < |Removed(b, location).order| ==> Removed(b, location).order[i] < POOL == |Removed(b, location).nodes|
    ensures ListedAt(b, location) != [] ==> ListedAt(Removed(b, location), location) == ListedAt(b, location)[1..]
    ensures other != location ==> ListedAt(Removed(b, location), other) == ListedAt(b, other)
  {
    RemoveAgrees(b, location);
    FindIsFirst(b, location);
    var i := Find(b, location, 0);
    hide AtLocation;
    if i < |b.order| {
      ShorterAt(b.order, b.nodes, i, location, other);
    }
    hide Distinct;
  }

  lemma ShorterAt(order: seq<nat>, nodes: seq<Node>, i: nat, location: word, other: word)
    requires Distinct(order) && i < |order| && forall j :: 0 <= j < |order| ==> order[j] < |nodes|
    requires nodes[order[i]].location == location && forall j :: 0 <= j < i ==> nodes[order[j]].location != location
    ensures var rest, nodes' := order[..i] + order[i + 1..], nodes[order[i] := FREE];
      && (forall j :: 0 <= j < |rest| ==> rest[j] < |nodes|)
      && AtLocation(order, nodes, location) == [order[i]] + AtLocation(rest, nodes', location)
      && (other != location ==> AtLocation(rest, nodes', other) == AtLocation(order, nodes, other))
  {
    var s, left, right := order[i], order[..i], order[i + 1..];
    assert order == left + ([s] + right);
    hide AtLocation;
    RestAtLocation(left, s, right, nodes, nodes[s := FREE], location);
    RestAtLocation(left, s, right, nodes, nodes[s := FREE], other);
    NoneAtLocation(left, nodes, location);
    hide *;
    assert AtLocation(left, nodes, other) + ([] + AtLocation(right, nodes, other)) == AtLocation(left, nodes, other) + AtLocation(right, nodes, other);
  }

  lemma RestAtLocation(left: seq<nat>, s: nat, right: seq<nat>, nodes: seq<Node>, nodes': seq<Node>, location: word)
    requires Distinct(left + ([s] + right)) && s < |nodes| == |nodes'|
    requires forall i :: 0 <= i < |left| ==> left[i] < |nodes|
    requires forall i :: 0 <= i < |right| ==> right[i] < |nodes|
    requires forall u :: 0 <= u < |nodes| && u != s ==> nodes'[u] == nodes[u]
    ensures AtLocation(left + right, nodes', location) == AtLocation(left, nodes, location) + AtLocation(right, nodes, location)
    ensures AtLocation(left + ([s] + right), nodes, location) == AtLocation(left, nodes, location)
      + ((if nodes[s].location == location then [s] else []) + AtLocation(right, nodes, location))
  {
    var order := left + ([s] + right);
    forall i | 0 <= i < |left|
      ensures nodes'[left[i]] == nodes[left[i]]
    {
      assert order[i] == left[i] && order[|left|] == s;
    }
    forall i | 0 <= i < |right|
      ensures nodes'[right[i]] == nodes[right[i]]
    {
      assert order[|left| + 1 + i] == right[i] && order[|left|] == s;
    }
    OneMoreAtLocation(s, right, nodes, location);
    hide Distinct, AtLocation;
    SameAtLocation(left, nodes, nodes', location);
    SameAtLocation(right, nodes, nodes', location);
    AtLocationJoin(left, right, nodes', location);
    AtLocationJoin(left, [s] + right, nodes, location);
  }

  lemma OneMoreAtLocation(s: nat, right: seq<nat>, nodes: seq<Node>, location: word)
    requires s < |nodes| && forall i :: 0 <= i < |right| ==> right[i] < |nodes|
    ensures AtLocation([s] + right, nodes, location)
      == (if nodes[s].location == location then [s] else []) + AtLocation(right, nodes, location)
  {
    assert ([s] + right)[1..] == right;
  }

  // A sync gives the second node the first one's timing, and changes nothing else of it
  // and no other node.
  lemma SyncCopiesTiming(b: Blinks, first: word, second: word)
    requires Agree(b) && ListedAt(b, first) != [] && ListedAt(b, second) != []
    ensures var s, t, r := ListedAt(b, first)[0], ListedAt(b, second)[0], Synced(b, first, second);
      && s < POOL && t < POOL && |r.nodes| == POOL && r.order == b.order
      && r.nodes[t].onLength == b.nodes[s].onLength && r.nodes[t].offLength == b.nodes[s].offLength
      && r.nodes[t].countdown == b.nodes[s].countdown && r.nodes[t].status == b.nodes[s].status
      && r.nodes[t].location == second && r.nodes[t].onChar == b.nodes[t].onChar && r.nodes[t].offChar == b.nodes[t].offChar
      && forall u :: 0 <= u < POOL && u != t ==> r.nodes[u] == b.nodes[u]
  {
    FindIsFirst(b, first);
    FindIsFirst(b, second);
    hide AtLocation, Distinct;
  }
}
