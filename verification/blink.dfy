// The linked list of fish/blink.S over the node pool of fish/fish.c.
module BlinkList {
  import opened Words
  import opened Console
  import opened BlinkModel

  const NULL := -1

  datatype Link = Link(node: Node, next: int)

  function Nodes(pool: seq<Link>): (r: seq<Node>)
    ensures |r| == |pool|
  {
    seq(|pool|, s requires 0 <= s < |pool| => pool[s].node)
  }

  function NextOf(order: seq<nat>, i: nat): int
    requires i < |order|
  {
    if i + 1 < |order| then order[i + 1] else NULL
  }

  // Following the links from `head` visits exactly `order` and then ends.
  ghost predicate Chain(pool: seq<Link>, head: int, order: seq<nat>) {
    && head == (if order == [] then NULL else order[0])
    && forall i :: 0 <= i < |order| ==> order[i] < |pool| && pool[order[i]].next == NextOf(order, i)
  }

  // A new first node in front of a chain that does not hold it.
  lemma LinkFirst(pool: seq<Link>, head: int, order: seq<nat>, s: nat, link: Link)
    requires Chain(pool, head, order) && s < |pool| && s !in order && link.next == head
    ensures Chain(pool[s := link], s, [s] + order)
  {
    var pool', order' := pool[s := link], [s] + order;
    forall i | 0 <= i < |order'|
      ensures order'[i] < |pool'| && pool'[order'[i]].next == NextOf(order', i)
    {
      if i > 0 {
        assert order'[i] == order[i - 1] && order[i - 1] in order;
        assert pool[order[i - 1]].next == NextOf(order, i - 1);
      }
    }
  }

  lemma UnlinkFirst(pool: seq<Link>, head: int, order: seq<nat>)
    requires Chain(pool, head, order) && order != []
    ensures order[0] < |pool| && Chain(pool, pool[order[0]].next, order[1..])
  {
    assert pool[order[0]].next == NextOf(order, 0);
    forall i | 0 <= i < |order[1..]|
      ensures order[1..][i] < |pool| && pool[order[1..][i]].next == NextOf(order[1..], i)
    {
      assert pool[order[i + 1]].next == NextOf(order, i + 1);
    }
  }

  lemma UnlinkInside(pool: seq<Link>, head: int, order: seq<nat>, i: nat)
    requires Chain(pool, head, order) && Distinct(order) && 0 < i < |order|
    ensures var prev, s := order[i - 1], order[i];
      && prev < |pool| && s < |pool|
      && Chain(pool[prev := pool[prev].(next := pool[s].next)], head, order[..i] + order[i + 1..])
  {
    var prev, s, rest := order[i - 1], order[i], order[..i] + order[i + 1..];
    var pool' := pool[prev := pool[prev].(next := pool[s].next)];
    assert pool[s].next == NextOf(order, i);
    forall k | 0 <= k < |rest|
      ensures rest[k] < |pool'| && pool'[rest[k]].next == NextOf(rest, k)
    {
      var j := if k < i then k else k + 1;
      assert rest[k] == order[j] && pool[order[j]].next == NextOf(order, j);
      if j != i - 1 {
        assert order[j] != prev;
      }
    }
  }

  // Nodes off the chain may change, and so may anything but the links on it.
  lemma ChainKept(pool: seq<Link>, pool': seq<Link>, head: int, order: seq<nat>)
    requires Chain(pool, head, order) && |pool'| == |pool|
    requires forall s :: s in order && s < |pool| ==> pool'[s].next == pool[s].next
    ensures Chain(pool', head, order)
  {
    forall i | 0 <= i < |order|
      ensures pool'[order[i]].next == NextOf(order, i)
    {
      assert order[i] in order;
    }
  }

  lemma HeadIsFirst(pool: seq<Link>, head: int, order: seq<nat>, i: nat)
    requires Chain(pool, head, order) && Distinct(order) && i < |order| && head == order[i]
    ensures i == 0 && order[..i] + order[i + 1..] == order[1..]
  {
  }

  class List {
    const pool: array<Link>
    const screen: array<int>          // the character bytes at vmem_base_addr
    var head: int
    ghost var order: seq<nat>

    ghost function Model(): Blinks reads this, pool, screen {
      Blinks(order, Nodes(pool[..]), screen[..])
    }

    ghost predicate Valid() reads this, pool, screen {
      Agree(Model()) && Chain(pool[..], head, order)
    }

    // The pool zeroed, the list empty
    constructor (vmem: array<int>)
      requires vmem.Length == CELLS
      ensures Valid() && order == [] && fresh(pool) && screen == vmem && screen[..] == old(vmem[..])
    {
      screen := vmem;
      pool := new Link[POOL](_ => Link(FREE, NULL));
      head, order := NULL, [];
      new;
      assert forall s :: 0 <= s < POOL ==> pool[..][s].node.location == 0;
    }

    // mp1_malloc
    method Malloc() returns (s: int)
      requires Valid()
      ensures var least := LeastFree(Nodes(pool[..]), 0);
        s == if least == POOL then NULL else least
    {
      ghost var nodes := Nodes(pool[..]);
      var i := 0;
      while i < POOL
        invariant 0 <= i <= POOL && LeastFree(nodes, i) == LeastFree(nodes, 0)
      {
        assert nodes[i] == pool[i].node;
        if pool[i].node.location == 0 {
          return i;
        }
        i := i + 1;
      }
      return NULL;
    }

    // mp1_ioctl_add; a node at location 0 is linked in and still counts as free
    method Add(n: Node) returns (status: int)
      requires Valid()
      modifies this, pool, screen
      ensures status == if CanAdd(old(Model()), n) then 0 else -1
      ensures Model() == Added(old(Model()), n) && Chain(pool[..], head, order)
      ensures Valid() <==> n.location != 0 || status == -1
    {
      AddAgrees(Model(), n);
      if n.location >= CELLS {
        return -1;
      }
      var copy := n.(status := 1, countdown := n.onLength);
      var s := Malloc();
      if s == NULL {
        return -1;
      }
      ghost var was := pool[..];
      LinkFirst(was, head, order, s, Link(copy, head));
      pool[s] := pool[s].(node := copy);
      pool[s] := pool[s].(next := head);
      head := s;
      order := [s as nat] + order;
      assert pool[..] == was[s := Link(copy, old(head))];
      Poke(pool[s].node.onChar, pool[s].node.location);
      return 0;
    }

    // mp1_poke
    method Poke(c: int, location: nat)
      requires location < screen.Length
      modifies screen
      ensures screen[..] == old(screen[..])[location := c]
    {
      screen[location] := c;
    }

    // mp1_find_helper
    method FindHelper(location: word) returns (s: int)
      requires Valid()
      ensures var i := Find(Model(), location, 0);
        s == if i == |order| then NULL else order[i]
    {
      ghost var b := Model();
      ghost var i := 0;
      s := head;
      while s != NULL
        invariant 0 <= i <= |order| && s == (if i < |order| then order[i] else NULL)
        invariant Find(b, location, i) == Find(b, location, 0)
        decreases |order| - i
      {
        assert b.nodes[order[i]] == pool[s].node;
        if pool[s].node.location == location {
          return;
        }
        assert s == order[i];
        s := pool[s].next;
        i := i + 1;
      }
    }

    // mp1_ioctl_remove
    method Remove(location: word) returns (status: int)
      requires Valid()
      modifies this, pool
      ensures Valid() && Model() == Removed(old(Model()), location)
      ensures status == if Find(old(Model()), location, 0) == |old(order)| then -1 else 0
    {
      RemoveAgrees(Model(), location);
      var s := FindHelper(location);
      if s == NULL {
        return -1;
      }
      ghost var i := Find(Model(), location, 0);
      Unlink(s, i);
      Release(s, i);
      return 0;
    }

    // The search for the link that points at s, and its redirection past s.
    method Unlink(s: int, ghost i: nat)
      requires Valid() && i < |order| && s == order[i]
      modifies this`head, pool
      ensures Nodes(pool[..]) == old(Nodes(pool[..]))
      ensures Chain(pool[..], head, order[..i] + order[i + 1..])
    {
      ghost var was := pool[..];
      if head == s {
        HeadIsFirst(was, head, order, i);
        UnlinkFirst(was, head, order);
        head := pool[s].next;
        return;
      }
      var prev := head;
      ghost var p := 0;
      while pool[prev].next != s
        invariant 0 <= p < i && prev == order[p]
        decreases i - p
      {
        assert pool[order[p]].next == order[p + 1];
        prev := pool[prev].next;
        p := p + 1;
      }
      assert order[p + 1] == order[i];
      UnlinkInside(was, head, order, i);
      pool[prev] := pool[prev].(next := pool[s].next);
      assert pool[..] == was[prev := was[prev].(next := was[s].next)];
    }

    // mp1_free
    method Release(s: int, ghost i: nat)
      requires pool.Length == POOL && i < |order| && s == order[i] && 0 <= s < POOL && Distinct(order)
      requires Chain(pool[..], head, order[..i] + order[i + 1..])
      modifies this`order, pool
      ensures order == old(order)[..i] + old(order)[i + 1..]
      ensures Nodes(pool[..]) == old(Nodes(pool[..]))[s := FREE]
      ensures Chain(pool[..], head, order)
    {
      ghost var was := pool[..];
      pool[s] := Link(FREE, NULL);
      order := order[..i] + order[i + 1..];
      assert pool[..] == was[s := Link(FREE, NULL)];
      WithoutOne(old(order), i, s);
      ChainKept(was, pool[..], head, order);
    }

    // mp1_ioctl_sync
    method Sync(first: word, second: word) returns (status: int)
      requires Valid()
      modifies pool, screen
      ensures Valid() && Model() == Synced(old(Model()), first, second)
      ensures status == 0 <==> Find(old(Model()), first, 0) < |order| && Find(old(Model()), second, 0) < |order|
    {
      SyncAndTickAgree(Model(), first, second);
      var esi := FindHelper(first);
      if esi == NULL {
        return -1;
      }
      var edi := FindHelper(second);
      if edi == NULL {
        return -1;
      }
      CopyTiming(esi, edi);
      Poke(pool[edi].node.offChar, pool[edi].node.location);
      return 0;
    }

    method CopyTiming(esi: nat, edi: nat)
      requires esi < pool.Length && edi < pool.Length && Chain(pool[..], head, order)
      modifies pool
      ensures Nodes(pool[..]) == old(Nodes(pool[..]))[edi := Timed(old(pool[edi].node), old(pool[esi].node))]
      ensures Chain(pool[..], head, order)
    {
      ghost var was := pool[..];
      pool[edi] := pool[edi].(node := pool[edi].node.(onLength := pool[esi].node.onLength));
      pool[edi] := pool[edi].(node := pool[edi].node.(offLength := pool[esi].node.offLength));
      pool[edi] := pool[edi].(node := pool[edi].node.(countdown := pool[esi].node.countdown));
      pool[edi] := pool[edi].(node := pool[edi].node.(status := pool[esi].node.status));
      assert pool[..] == was[edi := was[edi].(node := Timed(was[edi].node, was[esi].node))];
      ChainKept(was, pool[..], head, order);
    }

    // mp1_rtc_tasklet
    method Tasklet()
      requires Valid()
      modifies pool, screen
      ensures Valid() && Model() == TickedAll(old(Model()))
    {
      SyncAndTickAgree(Model(), 0, 0);
      assert pool.Length == POOL;
      ghost var was, screenWas := pool[..], screen[..];
      hide Chain, TickedAll, Nodes, TickedScreen, Agree;
      TickListed();
      ChainKept(was, pool[..], head, order);
      TickedLinks(was, pool[..], order, screenWas);
    }

    method TickListed()
      requires Valid()
      modifies pool, screen
      ensures TickedUpTo(old(pool[..]), pool[..], order, |order|)
      ensures screen[..] == TickedScreen(old(screen[..]), order, Nodes(old(pool[..])))
    {
      ghost var was, screenWas := pool[..], screen[..];
      assert order[..0] == [];
      hide Ticked, Toggles, CharOf, TickedUpTo, Distinct;
      var s := head;
      ghost var i := 0;
      while s != NULL
        invariant 0 <= i <= |order| && s == (if i < |order| then order[i] else NULL)
        invariant TickedUpTo(was, pool[..], order, i)
        invariant screen[..] == TickedScreen(screenWas, order[..i], Nodes(was))
        decreases |order| - i
      {
        ghost var mid := pool[..];
        TickedOneMore(was, mid, order, i);
        TickedScreenStep(screenWas, order, Nodes(was), i);
        TickAt(s);
        s := pool[s].next;
        i := i + 1;
      }
      assert order[..|order|] == order;
    }

    // The body of the tasklet's loop.
    method TickAt(s: nat)
      requires s < pool.Length && pool[s].node.location < screen.Length
      modifies pool, screen
      ensures pool[..] == old(pool[..])[s := TickedLink(old(pool[s]), true)]
      ensures var n := old(pool[s].node);
        screen[..] == if Toggles(n) then old(screen[..])[n.location := CharOf(Ticked(n))] else old(screen[..])
    {
      var n := pool[s].node;
      n := n.(countdown := if n.countdown == 0 then 0xFFFF else n.countdown - 1);
      if !(0 < n.countdown < 0x8000) {
        if n.status % 2 == 1 {
          Poke(n.offChar, n.location);
          n := n.(countdown := n.offLength);
        } else {
          Poke(n.onChar, n.location);
          n := n.(countdown := n.onLength);
        }
        n := n.(status := if n.status % 2 == 1 then n.status - 1 else n.status + 1);
      }
      pool[s] := pool[s].(node := n);
    }
  }

  function TickedLink(link: Link, listed: bool): Link {
    if listed then link.(node := Ticked(link.node)) else link
  }

  // The first i nodes of the list have had their tick, and nothing else has changed.
  ghost predicate TickedUpTo(was: seq<Link>, now: seq<Link>, order: seq<nat>, i: nat) {
    && |now| == |was|
    && (forall j :: 0 <= j < |order| && order[j] < |now| ==> now[order[j]] == TickedLink(was[order[j]], j < i))
    && forall u :: 0 <= u < |now| && u !in order ==> now[u] == was[u]
  }

  lemma TickedOneMore(was: seq<Link>, now: seq<Link>, order: seq<nat>, i: nat)
    requires TickedUpTo(was, now, order, i) && Distinct(order) && i < |order| && order[i] < |was|
    ensures |now| == |was| && now[order[i]] == was[order[i]]
    ensures TickedUpTo(was, now[order[i] := TickedLink(now[order[i]], true)], order, i + 1)
  {
    hide Ticked;
    assert order[i] in order;
  }

  lemma TickedLinks(pool: seq<Link>, pool': seq<Link>, order: seq<nat>, screen: seq<int>)
    requires |pool'| == |pool| && Agree(Blinks(order, Nodes(pool), screen))
    requires TickedUpTo(pool, pool', order, |order|)
    ensures Blinks(order, Nodes(pool'), TickedScreen(screen, order, Nodes(pool))) ==
      TickedAll(Blinks(order, Nodes(pool), screen))
  {
    hide Distinct, TickedScreen;
    forall u | 0 <= u < |pool|
      ensures pool'[u] == TickedLink(pool[u], u in order)
    {
      if u in order {
        var j :| 0 <= j < |order| && order[j] == u;
      }
    }
  }

  lemma TickedScreenStep(screen: seq<int>, order: seq<nat>, nodes: seq<Node>, i: nat)
    requires forall j :: 0 <= j < |order| ==> order[j] < |nodes| && nodes[order[j]].location < |screen|
    requires i < |order|
    ensures var before, n := TickedScreen(screen, order[..i], nodes), nodes[order[i]];
      TickedScreen(screen, order[..i + 1], nodes) == if Toggles(n) then before[n.location := CharOf(Ticked(n))] else before
  {
    assert order[..i + 1][..i] == order[..i];
  }
}
