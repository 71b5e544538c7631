// Runs of calls on the blinking characters: which node a search finds, and what a user
// sees at a location.
module BlinkRuns {
  import opened Words
  import opened Console
  import opened BlinkModel
  import opened BlinkTiming

  // ----- The newest match is found -----

  // When each node was last added: the number of calls made by then.
  ghost function Stamped(b: Blinks, c: Call, stamps: seq<nat>, time: nat): (r: seq<nat>)
    requires Agree(b) && |stamps| == POOL
    ensures |r| == POOL
  {
    if c.Add? && CanAdd(b, c.node) then stamps[LeastFree(b.nodes, 0) := time] else stamps
  }

  ghost function StampedAll(b: Blinks, calls: seq<Call>, stamps: seq<nat>, time: nat): (r: seq<nat>)
    requires Agree(b) && |stamps| == POOL && forall c :: c in calls ==> CallOk(c)
    ensures |r| == POOL
    decreases |calls|
  {
    if calls == [] then stamps
    else StampedAll(After(b, calls[0]), calls[1..], Stamped(b, calls[0], stamps, time), time + 1)
  }

  // The list runs from the newest node to the oldest.
  ghost predicate ByAge(order: seq<nat>, stamps: seq<nat>, time: nat) {
    && |stamps| == POOL
    && (forall i :: 0 <= i < |order| ==> order[i] < POOL && stamps[order[i]] < time)
    && forall i, j :: 0 <= i < j < |order| ==> stamps[order[i]] > stamps[order[j]]
  }

  lemma CallKeepsAge(b: Blinks, c: Call, stamps: seq<nat>, time: nat)
    requires Agree(b) && CallOk(c) && ByAge(b.order, stamps, time)
    ensures ByAge(After(b, c).order, Stamped(b, c, stamps, time), time + 1)
  {
    match c
    case Add(node) => AddKeepsAge(b, node, stamps, time);
    case Remove(location) =>
      hide Distinct;
      var i := Find(b, location, 0);
      if i < |b.order| {
        SkipKeepsAge(b.order, i, stamps, time);
      }
    case _ =>
  }

  lemma AddKeepsAge(b: Blinks, node: Node, stamps: seq<nat>, time: nat)
    requires Agree(b) && node.location != 0 && ByAge(b.order, stamps, time)
    ensures ByAge(Added(b, node).order, Stamped(b, Add(node), stamps, time), time + 1)
  {
    hide Distinct;
    if CanAdd(b, node) {
      var s, order := LeastFree(b.nodes, 0), Added(b, node).order;
      forall i | 0 < i < |order|
        ensures order[i] == b.order[i - 1] && order[i] != s
      {
        assert b.order[i - 1] in b.order;
      }
    }
  }

  lemma SkipKeepsAge(order: seq<nat>, i: nat, stamps: seq<nat>, time: nat)
    requires ByAge(order, stamps, time) && i < |order|
    ensures ByAge(order[..i] + order[i + 1..], stamps, time + 1)
  {
    var rest := order[..i] + order[i + 1..];
    assert forall j :: 0 <= j < |rest| ==> rest[j] == order[if j < i then j else j + 1];
  }

  lemma {:induction false} RunKeepsAge(b: Blinks, calls: seq<Call>, stamps: seq<nat>, time: nat)
    requires Agree(b) && (forall c :: c in calls ==> CallOk(c)) && ByAge(b.order, stamps, time)
    ensures ByAge(AfterAll(b, calls).order, StampedAll(b, calls, stamps, time), time + |calls|)
    decreases |calls|
  {
    assert |stamps| == POOL;
    hide After, Agree, Stamped, ByAge;
    if calls != [] {
      CallKeepsAge(b, calls[0], stamps, time);
      RunKeepsAge(After(b, calls[0]), calls[1..], Stamped(b, calls[0], stamps, time), time + 1);
    }
  }

  // Over every run from an empty list: a search for a location finds a node exactly
  // when one is listed there, and it is the one most recently added.
  lemma FindSeesNewest(b: Blinks, calls: seq<Call>, stamps: seq<nat>, location: word)
    requires Agree(b) && b.order == [] && |stamps| == POOL && forall c :: c in calls ==> CallOk(c)
    ensures var r, age := AfterAll(b, calls), StampedAll(b, calls, stamps, 0);
      var i := Find(r, location, 0);
      && (i < |r.order| <==> exists s :: s in r.order && s < POOL && r.nodes[s].location == location)
      && (i < |r.order| ==> r.nodes[r.order[i]].location == location)
      && forall s :: i < |r.order| && s in r.order && s < POOL && r.nodes[s].location == location ==>
           age[s] <= age[r.order[i]]
  {
    RunKeepsAge(b, calls, stamps, 0);
    FirstIsNewest(AfterAll(b, calls), StampedAll(b, calls, stamps, 0), |calls|, location);
  }

  lemma FirstIsNewest(r: Blinks, age: seq<nat>, time: nat, location: word)
    requires Agree(r) && ByAge(r.order, age, time)
    ensures var i := Find(r, location, 0);
      && (i < |r.order| <==> exists s :: s in r.order && s < POOL && r.nodes[s].location == location)
      && forall s :: i < |r.order| && s in r.order && s < POOL && r.nodes[s].location == location ==>
           age[s] <= age[r.order[i]]
  {
    var i := Find(r, location, 0);
    if i < |r.order| {
      assert r.order[i] in r.order;
    }
    forall s | s in r.order && s < POOL && r.nodes[s].location == location
      ensures i < |r.order| && age[s] <= age[r.order[i]]
    {
      var j :| 0 <= j < |r.order| && r.order[j] == s;
      assert i <= j;
    }
  }

  // After every run, a remove where characters blink leaves one fewer there: the newest is
  // gone, and the next search finds the next newest, or none when it was the last.
  lemma RemoveTakesNewest(b: Blinks, calls: seq<Call>, stamps: seq<nat>, location: word)
    requires Agree(b) && b.order == [] && |stamps| == POOL && forall c :: c in calls ==> CallOk(c)
    ensures var r, age := AfterAll(b, calls), StampedAll(b, calls, stamps, 0);
      ListedAt(r, location) != [] ==> NewestGone(r, age, location)
  {
    RunKeepsAge(b, calls, stamps, 0);
    hide After, AfterAll, StampedAll, AtLocation, ByAge, NewestGone;
    NewestIsGone(AfterAll(b, calls), StampedAll(b, calls, stamps, 0), |calls|, location);
  }

  ghost predicate NewestGone(r: Blinks, age: seq<nat>, location: word)
    requires Agree(r) && |age| == POOL && ListedAt(r, location) != []
  {
    var r', at := After(r, Remove(location)), ListedAt(r, location);
    var next := Find(r', location, 0);
    && at[0] < POOL && at[0] !in r'.order && ListedAt(r', location) == at[1..]
    && (forall s :: s in r'.order && s < POOL && r.nodes[s].location == location ==> age[s] <= age[at[0]])
    && (next < |r'.order| <==> |at| > 1)
    && (next < |r'.order| ==> r'.order[next] == at[1])
  }

  lemma NewestIsGone(r: Blinks, age: seq<nat>, time: nat, location: word)
    requires Agree(r) && ByAge(r.order, age, time)
    ensures ListedAt(r, location) != [] ==> NewestGone(r, age, location)
  {
    if ListedAt(r, location) != [] {
      var r' := After(r, Remove(location));
      RemoveShortens(r, location, location);
      FindIsFirst(r', location);
      RemoveTakesFirst(r, location);
      OlderStay(r, age, time, location);
      hide AtLocation, Distinct, Find, ByAge, Removed;
    }
  }

  lemma OlderStay(r: Blinks, age: seq<nat>, time: nat, location: word)
    requires Agree(r) && ByAge(r.order, age, time) && ListedAt(r, location) != []
    ensures var at := ListedAt(r, location);
      at[0] < POOL && forall s :: s in Removed(r, location).order && s < POOL && r.nodes[s].location == location ==> age[s] <= age[at[0]]
  {
    FindIsFirst(r, location);
    FirstIsNewest(r, age, time, location);
    var i := Find(r, location, 0);
    hide AtLocation, ByAge, Find;
    forall s | s in Removed(r, location).order && s < POOL && r.nodes[s].location == location
      ensures age[s] <= age[r.order[i]]
    {
      WithoutOne(r.order, i, s);
    }
  }

  // ----- What is seen at a location -----

  // Node s is alone at its location, which shows the character of its phase.
  ghost predicate Seen(b: Blinks, s: nat) requires Agree(b) {
    && s < POOL && s in b.order
    && (forall u :: u in b.order && u < POOL && u != s ==> b.nodes[u].location != b.nodes[s].location)
    && b.screen[b.nodes[s].location] == CharOf(b.nodes[s])
  }

  // The tasklet changes what is seen at a location only through a node listed there.
  lemma {:induction false} TickedCell(screen: seq<int>, order: seq<nat>, nodes: seq<Node>, s: nat, at: nat)
    requires forall i :: 0 <= i < |order| ==> order[i] < |nodes| && nodes[order[i]].location < |screen|
    requires s < |nodes| && at == nodes[s].location < |screen|
    requires forall i :: 0 <= i < |order| && order[i] != s ==> nodes[order[i]].location != at
    ensures TickedScreen(screen, order, nodes)[at] ==
      if s in order && Toggles(nodes[s]) then CharOf(Ticked(nodes[s])) else screen[at]
  {
    if order != [] {
      var init := order[..|order| - 1];
      TickedCell(screen, init, nodes, s, at);
      assert order == init + [order[|order| - 1]];
    }
  }

  lemma SeenCell(b: Blinks, s: nat)
    requires Agree(b) && Seen(b, s)
    ensures |b.nodes| == POOL && |b.screen| == CELLS
    ensures TickedScreen(b.screen, b.order, b.nodes)[b.nodes[s].location] == CharOf(Ticked(b.nodes[s]))
  {
    hide Distinct;
    forall i | 0 <= i < |b.order| && b.order[i] != s
      ensures b.nodes[b.order[i]].location != b.nodes[s].location
    {
      assert b.order[i] in b.order;
    }
    TickedCell(b.screen, b.order, b.nodes, s, b.nodes[s].location);
    assert !Toggles(b.nodes[s]) ==> CharOf(Ticked(b.nodes[s])) == CharOf(b.nodes[s]);
  }

  lemma TickKeepsSeen(b: Blinks, s: nat)
    requires Agree(b) && Seen(b, s)
    ensures Agree(TickedAll(b)) && Seen(TickedAll(b), s)
  {
    SyncAndTickAgree(b, 0, 0);
    SeenCell(b, s);
    hide Distinct, TickedScreen, Agree;
    var r := TickedAll(b);
    assert r.nodes[s] == Ticked(b.nodes[s]);
    assert forall u :: 0 <= u < POOL ==> r.nodes[u].location == b.nodes[u].location;
  }

  lemma CallKeepsSeen(b: Blinks, c: Call, s: nat)
    requires Agree(b) && CallOk(c) && Seen(b, s) && LeavesAlone(b, c, s)
    requires c.Add? ==> c.node.location != b.nodes[s].location
    ensures Seen(After(b, c), s) && After(b, c).nodes[s].location == b.nodes[s].location
  {
    CallTicksNode(b, c, s);
    match c
    case Tick => TickKeepsSeen(b, s);
    case Sync(first, second) =>
      var j := Find(b, second, 0);
      if j < |b.order| {
        assert b.order[j] in b.order;
      }
    case Remove(location) =>
      var i := Find(b, location, 0);
      if i < |b.order| {
        forall u | u in After(b, c).order && u < POOL && u != s
          ensures After(b, c).nodes[u].location != b.nodes[s].location
        {
          WithoutOne(b.order, i, u);
        }
      }
    case Add(node) =>
      if CanAdd(b, node) {
        forall u | u in After(b, c).order && u < POOL && u != s
          ensures After(b, c).nodes[u].location != b.nodes[s].location
        {
          assert u == LeastFree(b.nodes, 0) || u in b.order;
        }
      }
  }

  lemma {:induction false} RunKeepsSeen(b: Blinks, calls: seq<Call>, s: nat)
    requires Agree(b) && (forall c :: c in calls ==> CallOk(c)) && Seen(b, s) && LeftAlone(b, calls, s)
    requires forall c :: c in calls && c.Add? ==> c.node.location != b.nodes[s].location
    ensures Seen(AfterAll(b, calls), s) && AfterAll(b, calls).nodes[s].location == b.nodes[s].location
    decreases |calls|
  {
    hide After, Agree, LeavesAlone, Seen;
    if calls != [] {
      assert calls[0] in calls;
      SeenIsInPool(b, s);
      CallKeepsSeen(b, calls[0], s);
      SeenIsInPool(After(b, calls[0]), s);
      RunKeepsSeen(After(b, calls[0]), calls[1..], s);
    }
  }

  lemma SeenIsInPool(b: Blinks, s: nat)
    requires Agree(b) && Seen(b, s)
    ensures s < POOL == |b.nodes|
  {
  }

  // A character added where no other blinks is seen to blink: k ticks later the screen
  // shows its on character exactly in the first part of its period, whatever else was
  // added elsewhere, removed or synchronised meanwhile.
  lemma CharacterBlinks(b: Blinks, node: Node, calls: seq<Call>)
    requires Agree(b) && node.location != 0 && CanAdd(b, node) && (forall c :: c in calls ==> CallOk(c))
    requires forall u :: u in b.order && u < POOL ==> b.nodes[u].location != node.location
    requires LeftAlone(After(b, Add(node)), calls, LeastFree(b.nodes, 0))
    requires forall c :: c in calls && c.Add? ==> c.node.location != node.location
    ensures var on := Ticks(calls) % PeriodOf(node) < Lasts(node.onLength);
      AfterAll(After(b, Add(node)), calls).screen[node.location] == if on then node.onChar else node.offChar
  {
    var s, r := LeastFree(b.nodes, 0), After(b, Add(node));
    forall u | u in r.order && u < POOL && u != s
      ensures r.nodes[u].location != node.location
    {
      assert u in b.order;
    }
    assert r.order[0] == s && Seen(r, s);
    RunKeepsSeen(r, calls, s);
    NodeSeesEveryTick(r, calls, s);
    TimesKeepsChars(r.nodes[s], Ticks(calls));
    PhaseInRun(b, node, calls);
  }

  lemma {:induction false} TimesKeepsChars(n: Node, k: nat)
    ensures Times(n, k).onChar == n.onChar && Times(n, k).offChar == n.offChar
    decreases k
  {
    if k > 0 {
      TimesKeepsChars(n, k - 1);
    }
  }
}
