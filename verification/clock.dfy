// The virtual clocks of student-distrib/rtc.c: one periodic interrupt at 1024 Hz,
// three terminals that each see it at a rate of their own.
module Clock {
  import opened Terminals

  const PHYSICAL_RATE := 1024

  predicate PowerOfTwo(n: int)
    decreases n
  {
    n == 1 || (n > 1 && n % 2 == 0 && PowerOfTwo(n / 2))
  }

  predicate RateOk(rate: int) {
    2 <= rate <= 1024 && PowerOfTwo(rate)
  }

  // virtual_rate and virtual_count of each terminal, and which terminal is running.
  datatype Clocks = Clocks(rates: seq<int>, counts: seq<int>, active: nat)

  ghost predicate ClocksOk(c: Clocks) {
    && |c.rates| == |c.counts| == TERMINALS && c.active < TERMINALS
    && (forall t :: 0 <= t < TERMINALS ==> RateOk(c.rates[t]))
    && forall t :: 0 <= t < TERMINALS ==> 0 <= c.counts[t] <= PHYSICAL_RATE / 2
  }

  datatype Event = Interrupt | Schedule(next: nat) | BeginRead | SetRate(rate: int)

  function Period(rate: int): int
    requires rate != 0
  {
    PHYSICAL_RATE / rate
  }

  function Less(count: int): int {
    if count > 0 then count - 1 else count
  }

  predicate EventOk(e: Event) {
    e.Schedule? ==> e.next < TERMINALS
  }

  // Every event keeps each rate a power of two and each count within half a second.
  ghost function Step(c: Clocks, e: Event): (r: Clocks)
    requires ClocksOk(c) && EventOk(e)
    ensures ClocksOk(r)
  {
    PeriodsFillASecond(c.rates[c.active]);
    if e.SetRate? && RateOk(e.rate) then PeriodsFillASecond(e.rate); Stepped(c, e) else Stepped(c, e)
  }

  ghost function Stepped(c: Clocks, e: Event): Clocks
    requires ClocksOk(c) && EventOk(e)
  {
    match e
    case Interrupt => c.(counts := [Less(c.counts[0]), Less(c.counts[1]), Less(c.counts[2])])
    case Schedule(next) => c.(active := next)
    case BeginRead => c.(counts := c.counts[c.active := Period(c.rates[c.active])])
    case SetRate(rate) =>
      if RateOk(rate) then
        c.(rates := c.rates[c.active := rate], counts := c.counts[c.active := Period(rate)])
      else c
  }

  // ----- Powers of two -----

  lemma {:induction false} NoPowerBetween(p: int, q: int)
    requires PowerOfTwo(p) && PowerOfTwo(q) && p < q
    ensures 2 * p <= q
    decreases p
  {
    if p > 1 {
      NoPowerBetween(p / 2, q / 2);
    }
  }

  lemma Powers()
    ensures forall p :: p in {2, 4, 8, 16, 32, 64, 128, 256, 512, 1024} ==> PowerOfTwo(p)
  {
    assert PowerOfTwo(1) && PowerOfTwo(2) && PowerOfTwo(4) && PowerOfTwo(8) && PowerOfTwo(16);
    assert PowerOfTwo(32) && PowerOfTwo(64) && PowerOfTwo(128) && PowerOfTwo(256);
  }

  lemma {:induction false} RateIsListed(rate: int, p: int)
    requires RateOk(rate) && p in {2, 4, 8, 16, 32, 64, 128, 256, 512, 1024} && p <= rate
    ensures rate in {2, 4, 8, 16, 32, 64, 128, 256, 512, 1024}
    decreases 1024 - p
  {
    Powers();
    if p < rate {
      NoPowerBetween(p, rate);
      RateIsListed(rate, 2 * p);
    }
  }

  lemma RateIsOkExactlyWhenListed(rate: int)
    ensures RateOk(rate) <==> rate in {2, 4, 8, 16, 32, 64, 128, 256, 512, 1024}
  {
    Powers();
    if RateOk(rate) {
      RateIsListed(rate, 2);
    }
  }

  // A virtual second is exactly 1024 interrupts: `rate` reads of one period each.
  lemma PeriodsFillASecond(rate: int)
    requires RateOk(rate)
    ensures rate * Period(rate) == PHYSICAL_RATE && 1 <= Period(rate) <= PHYSICAL_RATE / 2
  {
    RateIsListed(rate, 2);
  }

  // ----- The driver -----

  class Rtc {
    var rates: seq<int>
    var counts: seq<int>
    var active: nat

    ghost function State(): Clocks reads this {
      Clocks(rates, counts, active)
    }

    constructor ()
      ensures ClocksOk(State()) && active == 0
      ensures forall t :: 0 <= t < TERMINALS ==> rates[t] == 2 && counts[t] == 0
    {
      assert PowerOfTwo(1) && PowerOfTwo(2);
      rates, counts, active := [2, 2, 2], [0, 0, 0], 0;
    }

    // rtc_handler
    method Handler()
      requires ClocksOk(State())
      modifies this`counts
      ensures State() == Step(old(State()), Interrupt)
    {
      if counts[0] > 0 {
        counts := counts[0 := counts[0] - 1];
      }
      if counts[1] > 0 {
        counts := counts[1 := counts[1] - 1];
      }
      if counts[2] > 0 {
        counts := counts[2 := counts[2] - 1];
      }
    }

    // rtc_read, up to its wait for the count to reach 0
    method Read()
      requires ClocksOk(State())
      modifies this`counts
      ensures State() == Step(old(State()), BeginRead)
    {
      counts := counts[active := PHYSICAL_RATE / rates[active]];
    }

    // rtc_write
    method Write(rate: int) returns (status: int)
      requires ClocksOk(State())
      modifies this`rates, this`counts
      ensures State() == Step(old(State()), SetRate(rate))
      ensures status == if RateOk(rate) then 0 else -1
    {
      if rate < 2 || rate > 1024 {
        return -1;
      }
      var i := 2;
      Powers();
      while i < 1030
        invariant (2 <= i <= 1024 || i == 2048) && PowerOfTwo(i)
        invariant rates == old(rates) && counts == old(counts)
        invariant PowerOfTwo(rate) ==> i <= rate
        decreases 2048 - i
      {
        if i == rate {
          rates := rates[active := rate];
          counts := counts[active := PHYSICAL_RATE / rates[active]];
          return 0;
        }
        if PowerOfTwo(rate) {
          NoPowerBetween(i, rate);
        }
        if 512 < i {
          NoPowerBetween(512, i);
        }
        assert PowerOfTwo(2 * i);
        i := i * 2;
      }
      return -1;
    }
  }

  // ----- Over every interleaving -----

  ghost function Run(c: Clocks, events: seq<Event>): (r: Clocks)
    requires ClocksOk(c) && forall e :: e in events ==> EventOk(e)
    ensures ClocksOk(r)
    decreases |events|
  {
    if events == [] then c
    else Run(Step(c, events[0]), events[1..])
  }

  function Interrupts(events: seq<Event>): nat {
    if events == [] then 0 else (if events[0].Interrupt? then 1 else 0) + Interrupts(events[1..])
  }

  // Terminal t neither reads its clock nor sets it: it is waiting, or not running.
  ghost predicate Waits(c: Clocks, events: seq<Event>, t: nat)
    requires ClocksOk(c) && forall e :: e in events ==> EventOk(e)
    decreases |events|
  {
    events == [] ||
    (&& !((events[0].BeginRead? || events[0].SetRate?) && c.active == t)
     && Waits(Step(c, events[0]), events[1..], t))
  }

  // Whatever the other terminals do meanwhile, a terminal's count goes down by one for
  // each interrupt and its rate stays.
  lemma {:induction false} CountsDownAlone(c: Clocks, events: seq<Event>, t: nat)
    requires ClocksOk(c) && t < TERMINALS && (forall e :: e in events ==> EventOk(e)) && Waits(c, events, t)
    ensures var left := c.counts[t] - Interrupts(events);
      Run(c, events).counts[t] == (if left > 0 then left else 0) && Run(c, events).rates[t] == c.rates[t]
    decreases |events|
  {
    if events != [] {
      CountsDownAlone(Step(c, events[0]), events[1..], t);
    }
  }

  // A read that the active terminal begins is over after exactly 1024 / rate interrupts.
  lemma ReadTakesOnePeriod(c: Clocks, events: seq<Event>)
    requires ClocksOk(c) && (forall e :: e in events ==> EventOk(e))
    requires Waits(Step(c, BeginRead), events, c.active)
    ensures Run(Step(c, BeginRead), events).counts[c.active] == 0
      <==> Interrupts(events) >= PHYSICAL_RATE / c.rates[c.active]
  {
    CountsDownAlone(Step(c, BeginRead), events, c.active);
    PeriodsFillASecond(c.rates[c.active]);
  }

  // A rate that was accepted is the rate of the terminal's reads from then on: after the
  // write and whatever the others do, a read is over after 1024 / rate interrupts.
  lemma WriteSetsPeriod(c: Clocks, rate: int, between: seq<Event>, events: seq<Event>)
    requires ClocksOk(c) && RateOk(rate)
    requires (forall e :: e in between ==> EventOk(e)) && (forall e :: e in events ==> EventOk(e))
    requires Waits(Step(c, SetRate(rate)), between, c.active)
    requires var later := Run(Step(c, SetRate(rate)), between);
      later.active == c.active && Waits(Step(later, BeginRead), events, c.active)
    ensures var later := Run(Step(c, SetRate(rate)), between);
      Run(Step(later, BeginRead), events).counts[c.active] == 0 <==> Interrupts(events) >= 1024 / rate
  {
    CountsDownAlone(Step(c, SetRate(rate)), between, c.active);
    ReadTakesOnePeriod(Run(Step(c, SetRate(rate)), between), events);
  }

  // ----- Successive reads -----

  // The interrupts that terminal t's count took in.
  ghost function Counted(c: Clocks, events: seq<Event>, t: nat): nat
    requires ClocksOk(c) && t < TERMINALS && forall e :: e in events ==> EventOk(e)
    decreases |events|
  {
    if events == [] then 0
    else
      (if events[0].Interrupt? && c.counts[t] > 0 then 1 else 0) + Counted(Step(c, events[0]), events[1..], t)
  }

  lemma {:induction false} CountedIsWhatIsGone(c: Clocks, events: seq<Event>, t: nat)
    requires ClocksOk(c) && t < TERMINALS && (forall e :: e in events ==> EventOk(e)) && Waits(c, events, t)
    ensures Counted(c, events, t) == c.counts[t] - Run(c, events).counts[t]
    decreases |events|
  {
    if events != [] {
      CountedIsWhatIsGone(Step(c, events[0]), events[1..], t);
    }
  }

  // Terminal t reads its clock |waits| times. Each time it runs, begins to wait, and
  // goes on at some moment after its count has reached 0; anything may happen meanwhile.
  ghost predicate Reads(c: Clocks, waits: seq<seq<Event>>, t: nat)
    requires ClocksOk(c) && t < TERMINALS
    decreases |waits|
  {
    waits == [] ||
    (&& c.active == t
     && (forall e :: e in waits[0] ==> EventOk(e))
     && Waits(Step(c, BeginRead), waits[0], t)
     && var after := Run(Step(c, BeginRead), waits[0]);
       after.counts[t] == 0 && Reads(after, waits[1..], t))
  }

  ghost function CountedInAll(c: Clocks, waits: seq<seq<Event>>, t: nat): nat
    requires ClocksOk(c) && t < TERMINALS && Reads(c, waits, t)
    decreases |waits|
  {
    if waits == [] then 0
    else
      var begun := Step(c, BeginRead);
      Counted(begun, waits[0], t) + CountedInAll(Run(begun, waits[0]), waits[1..], t)
  }

  lemma {:induction false} ReadsTakePeriods(c: Clocks, waits: seq<seq<Event>>, t: nat)
    requires ClocksOk(c) && t < TERMINALS && Reads(c, waits, t)
    ensures CountedInAll(c, waits, t) == |waits| * Period(c.rates[t])
    decreases |waits|
  {
    if waits != [] {
      var begun := Step(c, BeginRead);
      CountedIsWhatIsGone(begun, waits[0], t);
      CountsDownAlone(begun, waits[0], t);
      ReadsTakePeriods(Run(begun, waits[0]), waits[1..], t);
      hide *;
      assert |waits| * Period(c.rates[t]) == Period(c.rates[t]) + (|waits| - 1) * Period(c.rates[t]);
    }
  }

  // `rate` successive reads take in exactly the 1024 interrupts of a second, whatever
  // the other terminals do and however long each read goes on after its count is 0.
  lemma SecondOfReads(c: Clocks, waits: seq<seq<Event>>, t: nat)
    requires ClocksOk(c) && t < TERMINALS && Reads(c, waits, t) && |waits| == c.rates[t]
    ensures CountedInAll(c, waits, t) == PHYSICAL_RATE
  {
    ReadsTakePeriods(c, waits, t);
    PeriodsFillASecond(c.rates[t]);
  }
}
