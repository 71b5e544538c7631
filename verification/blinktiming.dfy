// When a blinking character is on: the 16-bit countdown of fish/blink.S against a
// plain periodic schedule, alone and within runs of the whole list.
module BlinkTiming {
  import opened Words
  import opened BlinkModel

  // How many ticks a countdown lasts. A length of 0 or above 0x8000 lasts one tick,
  // since the decremented word is not positive as a signed number.
  function Lasts(length: word): (n: nat)
    ensures 1 <= n <= 0x8000
  {
    if 1 <= length <= 0x8000 then length else 1
  }

  predicate IsOn(n: Node) {
    n.status % 2 == 1
  }

  // The node has `left` ticks to go in its present phase.
  ghost predicate At(n: Node, start: Node, on: bool, left: nat) {
    && n.onLength == start.onLength && n.offLength == start.offLength
    && n.status == (if on then 1 else 0)
    && Lasts(n.countdown) == left
  }

  function Times(n: Node, k: nat): Node {
    if k == 0 then n else Ticked(Times(n, k - 1))
  }

  lemma TickWithin(n: Node, start: Node, on: bool, left: nat)
    requires At(n, start, on, left)
    ensures left > 1 ==> At(Ticked(n), start, on, left - 1)
    ensures left == 1 ==> At(Ticked(n), start, !on, Lasts(if on then start.offLength else start.onLength))
  {
  }

  lemma {:induction false} TimesJoin(n: Node, a: nat, b: nat)
    ensures Times(n, a + b) == Times(Times(n, a), b)
    decreases b
  {
    if b > 0 {
      TimesJoin(n, a, b - 1);
    }
  }

  // Within one phase, k ticks use up k of what is left.
  lemma {:induction false} WithinPhase(n: Node, start: Node, on: bool, left: nat, k: nat)
    requires At(n, start, on, left) && k < left
    ensures At(Times(n, k), start, on, left - k)
    decreases k
  {
    if k > 0 {
      WithinPhase(n, start, on, left, k - 1);
      TickWithin(Times(n, k - 1), start, on, left - (k - 1));
    }
  }

  lemma ThroughPhase(n: Node, start: Node, on: bool, left: nat)
    requires At(n, start, on, left) && left > 0
    ensures At(Times(n, left), start, !on, Lasts(if on then start.offLength else start.onLength))
  {
    WithinPhase(n, start, on, left, left - 1);
    TickWithin(Times(n, left - 1), start, on, 1);
  }

  function PeriodOf(n: Node): (p: nat)
    ensures p >= 2
  {
    Lasts(n.onLength) + Lasts(n.offLength)
  }

  // After whole periods the node is where it started.
  lemma {:induction false} AfterPeriods(start: Node, q: nat)
    ensures At(Times(Started(start), q * PeriodOf(start)), start, true, Lasts(start.onLength))
    decreases q
  {
    var on, off := Lasts(start.onLength), Lasts(start.offLength);
    if q > 0 {
      AfterPeriods(start, q - 1);
      var before := (q - 1) * PeriodOf(start);
      var n := Times(Started(start), before);
      ThroughPhase(n, start, true, on);
      ThroughPhase(Times(n, on), start, false, off);
      TimesJoin(n, on, off);
      TimesJoin(Started(start), before, on + off);
      assert q * PeriodOf(start) == before + (on + off);
    }
  }

  // For all lengths: k ticks after it was added, a node is on exactly in the first
  // part of its period, and its countdown lasts to the end of that part.
  lemma BlinkPhase(start: Node, k: nat)
    ensures var p, on := PeriodOf(start), Lasts(start.onLength);
      var n := Times(Started(start), k);
      && (IsOn(n) <==> k % p < on)
      && Lasts(n.countdown) == if k % p < on then on - k % p else p - k % p
  {
    var p := PeriodOf(start);
    AtWhole(start, k, p);
    hide *;
    PhaseAt(start, Whole(k, p), k % p);
  }

  // The ticks of the periods already over.
  function Whole(k: nat, p: nat): (w: nat)
    requires p > 0
    ensures w + k % p == k && k % p < p
  {
    k / p * p
  }

  lemma AtWhole(start: Node, k: nat, p: nat)
    requires p == PeriodOf(start)
    ensures At(Times(Started(start), Whole(k, p)), start, true, Lasts(start.onLength))
  {
    AfterPeriods(start, k / p);
  }

  lemma PhaseAt(start: Node, whole: nat, m: nat)
    requires m < PeriodOf(start) && At(Times(Started(start), whole), start, true, Lasts(start.onLength))
    ensures var p, on := PeriodOf(start), Lasts(start.onLength);
      var n := Times(Started(start), whole + m);
      && (IsOn(n) <==> m < on)
      && Lasts(n.countdown) == if m < on then on - m else p - m
  {
    hide Lasts, Times;
    var p, on := PeriodOf(start), Lasts(start.onLength);
    var n := Times(Started(start), whole);
    TimesJoin(Started(start), whole, m);
    if m < on {
      WithinPhase(n, start, true, on, m);
    } else {
      ThroughPhase(n, start, true, on);
      WithinPhase(Times(n, on), start, false, p - on, m - on);
      TimesJoin(n, on, m - on);
    }
  }

  // ----- Runs -----

  datatype Call = Add(node: Node) | Remove(location: word) | Sync(first: word, second: word) | Tick

  predicate CallOk(c: Call) {
    c.Add? ==> c.node.location != 0
  }

  ghost function After(b: Blinks, c: Call): (r: Blinks)
    requires Agree(b) && CallOk(c)
    ensures Agree(r)
  {
    match c
    case Add(node) => AddAgrees(b, node); Added(b, node)
    case Remove(location) => RemoveAgrees(b, location); Removed(b, location)
    case Sync(first, second) => SyncAndTickAgree(b, first, second); Synced(b, first, second)
    case Tick => SyncAndTickAgree(b, 0, 0); TickedAll(b)
  }

  ghost function AfterAll(b: Blinks, calls: seq<Call>): (r: Blinks)
    requires Agree(b) && forall c :: c in calls ==> CallOk(c)
    ensures Agree(r)
    decreases |calls|
  {
    if calls == [] then b else AfterAll(After(b, calls[0]), calls[1..])
  }

  function Ticks(calls: seq<Call>): nat {
    if calls == [] then 0 else (if calls[0].Tick? then 1 else 0) + Ticks(calls[1..])
  }

  // Node s is in use, and the call neither removes it nor gives it another's timing.
  ghost predicate LeavesAlone(b: Blinks, c: Call, s: nat) requires Agree(b) {
    && s in b.order
    && (c.Remove? ==> var i := Find(b, c.location, 0); i < |b.order| ==> b.order[i] != s)
    && (c.Sync? ==> var j := Find(b, c.second, 0); j < |b.order| ==> b.order[j] != s)
  }

  ghost predicate LeftAlone(b: Blinks, calls: seq<Call>, s: nat)
    requires Agree(b) && forall c :: c in calls ==> CallOk(c)
    decreases |calls|
  {
    s in b.order && (calls != [] ==> LeavesAlone(b, calls[0], s) && LeftAlone(After(b, calls[0]), calls[1..], s))
  }

  lemma CallTicksNode(b: Blinks, c: Call, s: nat)
    requires Agree(b) && CallOk(c) && LeavesAlone(b, c, s)
    ensures s < POOL && s in After(b, c).order
    ensures After(b, c).nodes[s] == if c.Tick? then Ticked(b.nodes[s]) else b.nodes[s]
  {
    var i :| 0 <= i < |b.order| && b.order[i] == s;
    if c.Add? && CanAdd(b, c.node) {
      assert Added(b, c.node).order[i + 1] == s;
    } else if c.Remove? && Find(b, c.location, 0) < |b.order| {
      WithoutOne(b.order, Find(b, c.location, 0), s);
    }
  }

  lemma {:induction false} TimesStep(n: Node, k: nat)
    ensures Times(Ticked(n), k) == Times(n, k + 1)
  {
    TimesJoin(n, 1, k);
    assert Times(n, 1) == Ticked(Times(n, 0));
  }

  // Whatever is added, removed and synchronised around it, a node left alone has seen
  // exactly the ticks of the run.
  lemma {:induction false} NodeSeesEveryTick(b: Blinks, calls: seq<Call>, s: nat)
    requires Agree(b) && (forall c :: c in calls ==> CallOk(c)) && LeftAlone(b, calls, s)
    ensures s < POOL && s in AfterAll(b, calls).order
    ensures AfterAll(b, calls).nodes[s] == Times(b.nodes[s], Ticks(calls))
    decreases |calls|
  {
    hide After, Agree, LeavesAlone;
    ListedIsInPool(b, s);
    if calls != [] {
      CallTicksNode(b, calls[0], s);
      NodeSeesEveryTick(After(b, calls[0]), calls[1..], s);
      TimesStep(b.nodes[s], Ticks(calls[1..]));
    }
  }

  lemma ListedIsInPool(b: Blinks, s: nat)
    requires Agree(b) && s in b.order
    ensures s < POOL == |b.nodes|
  {
    var i :| 0 <= i < |b.order| && b.order[i] == s;
  }

  // The phase of a node within a run: added, then left alone for k ticks.
  lemma PhaseInRun(b: Blinks, node: Node, calls: seq<Call>)
    requires Agree(b) && node.location != 0 && CanAdd(b, node)
    requires (forall c :: c in calls ==> CallOk(c)) && LeftAlone(After(b, Add(node)), calls, LeastFree(b.nodes, 0))
    ensures var n := AfterAll(After(b, Add(node)), calls).nodes[LeastFree(b.nodes, 0)];
      var k, p, on := Ticks(calls) % PeriodOf(node), PeriodOf(node), Lasts(node.onLength);
      && (IsOn(n) <==> k < on)
      && Lasts(n.countdown) == if k < on then on - k else p - k
  {
    var s := LeastFree(b.nodes, 0);
    NodeSeesEveryTick(After(b, Add(node)), calls, s);
    assert After(b, Add(node)).nodes[s] == Started(node);
    BlinkPhase(node, Ticks(calls));
  }

  // ----- Synchronised nodes -----

  ghost predicate SameTiming(a: Node, b: Node) {
    a.onLength == b.onLength && a.offLength == b.offLength && a.countdown == b.countdown && a.status == b.status
  }

  lemma {:induction false} TimingPersists(a: Node, b: Node, k: nat)
    requires SameTiming(a, b)
    ensures SameTiming(Times(a, k), Times(b, k))
    decreases k
  {
    if k > 0 {
      TimingPersists(a, b, k - 1);
    }
  }

  // After a sync the two nodes are on and off together, and toggle at the same ticks,
  // in every later run that leaves both alone.
  lemma SyncedNodesBlinkTogether(b: Blinks, first: word, second: word, calls: seq<Call>)
    requires Agree(b) && Find(b, first, 0) < |b.order| && Find(b, second, 0) < |b.order|
    requires forall c :: c in calls ==> CallOk(c)
    requires LeftAlone(After(b, Sync(first, second)), calls, b.order[Find(b, first, 0)])
    requires LeftAlone(After(b, Sync(first, second)), calls, b.order[Find(b, second, 0)])
    ensures var r := AfterAll(After(b, Sync(first, second)), calls);
      SameTiming(r.nodes[b.order[Find(b, first, 0)]], r.nodes[b.order[Find(b, second, 0)]])
  {
    var s, t, r := b.order[Find(b, first, 0)], b.order[Find(b, second, 0)], After(b, Sync(first, second));
    NodeSeesEveryTick(r, calls, s);
    NodeSeesEveryTick(r, calls, t);
    TimingPersists(r.nodes[s], r.nodes[t], Ticks(calls));
  }
}
