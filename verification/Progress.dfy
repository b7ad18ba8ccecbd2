/** progress.py: the rolling rate estimate, over the reals, and the accounting of several files at once. */
module Progress {
  import opened Wrappers
  import opened Sequences

  // ---- RateEstimator ----

  datatype Estimate = Estimate(lastTime: real, lastAmount: real, rate: Option<real>)

  /** _temporal_rolling_ave and _rolling_ave; no time between two updates means no recent rate. */
  function RollingAverage(timeDiff: real, readDiff: real, last: Option<real>, timescale: real): Option<real>
    requires timescale > 0.0
  {
    if timeDiff == 0.0 then last
    else if last.None? then Some(readDiff / timeDiff)
    else Some(Mixed(Epsilon(timeDiff, timescale), readDiff / timeDiff, last.value))
  }

  function Epsilon(timeDiff: real, timescale: real): real
    requires timescale > 0.0
  {
    var epsilon := timeDiff / timescale;
    if epsilon > 1.0 then 1.0 else epsilon
  }

  function Mixed(epsilon: real, recent: real, last: real): real { epsilon * recent + (1.0 - epsilon) * last }

  function Updated(e: Estimate, amount: real, now: real, timescale: real): Estimate
    requires timescale > 0.0
  {
    if amount == 0.0 then Estimate(now, 0.0, None)
    else if e.lastAmount == 0.0 then e.(lastAmount := amount)
    else Estimate(now, amount, RollingAverage(now - e.lastTime, amount - e.lastAmount, e.rate, timescale))
  }

  class RateEstimator {
    const timescale: real
    var lastUpdateTime: real
    var lastAmountRead: real
    var aveRate: Option<real>

    ghost function State(): Estimate
      reads this
    {
      Estimate(lastUpdateTime, lastAmountRead, aveRate)
    }

    constructor (timescale: real, now: real)
      ensures State() == Estimate(now, 0.0, None) && this.timescale == timescale
    {
      this.timescale, lastUpdateTime, lastAmountRead, aveRate := timescale, now, 0.0, None;
    }

    method Start(now: real)
      modifies this
      ensures State() == Estimate(now, 0.0, None)
    {
      lastUpdateTime, lastAmountRead, aveRate := now, 0.0, None;
    }

    method Update(amountRead: real, now: real)
      requires timescale > 0.0
      modifies this
      ensures State() == Updated(old(State()), amountRead, now, timescale)
      ensures lastAmountRead == amountRead
      ensures amountRead == 0.0 ==> aveRate.None? && lastUpdateTime == now
      ensures amountRead != 0.0 && old(lastAmountRead) == 0.0 ==>
                aveRate == old(aveRate) && lastUpdateTime == old(lastUpdateTime)
      ensures amountRead != 0.0 && old(lastAmountRead) != 0.0 ==>
                lastUpdateTime == now
                && aveRate == RollingAverage(now - old(lastUpdateTime), amountRead - old(lastAmountRead),
                                             old(aveRate), timescale)
    {
      if amountRead == 0.0 {
        lastUpdateTime, lastAmountRead, aveRate := now, 0.0, None;
        return;
      }
      var timeDiff, readDiff := now - lastUpdateTime, amountRead - lastAmountRead;
      if lastAmountRead != 0.0 {
        lastUpdateTime := now;
        aveRate := RollingAverage(timeDiff, readDiff, aveRate, timescale);
      }
      lastAmountRead := amountRead;
    }
  }

  /** An update: the amount read so far, and the clock. */
  datatype Sample = Sample(amount: real, now: real)

  function EstimateAt(start: Estimate, samples: seq<Sample>, timescale: real): Estimate
    requires timescale > 0.0
  {
    if samples == [] then start
    else
      var s := samples[|samples| - 1];
      Updated(EstimateAt(start, samples[..|samples| - 1], timescale), s.amount, s.now, timescale)
  }

  /** The instantaneous rates that have been folded in since the last reset. */
  function RatesAt(start: Estimate, samples: seq<Sample>, timescale: real): seq<real>
    requires timescale > 0.0
  {
    if samples == [] then []
    else
      var before := EstimateAt(start, samples[..|samples| - 1], timescale);
      var rates := RatesAt(start, samples[..|samples| - 1], timescale);
      var s := samples[|samples| - 1];
      if s.amount == 0.0 then []
      else if before.lastAmount == 0.0 || s.now == before.lastTime then rates
      else rates + [(s.amount - before.lastAmount) / (s.now - before.lastTime)]
  }

  lemma NoSamples(start: Estimate, timescale: real)
    requires timescale > 0.0
    ensures EstimateAt(start, [], timescale) == start && RatesAt(start, [], timescale) == []
  {
  }

  lemma SampleAdded(start: Estimate, samples: seq<Sample>, timescale: real)
    requires timescale > 0.0 && samples != []
    ensures
      var init, s := samples[..|samples| - 1], samples[|samples| - 1];
      var before, rates := EstimateAt(start, init, timescale), RatesAt(start, init, timescale);
      && EstimateAt(start, samples, timescale) == Updated(before, s.amount, s.now, timescale)
      && RatesAt(start, samples, timescale)
         == if s.amount == 0.0 then []
            else if before.lastAmount == 0.0 || s.now == before.lastTime then rates
            else rates + [(s.amount - before.lastAmount) / (s.now - before.lastTime)]
  {
  }

  ghost predicate ClockForward(start: Estimate, samples: seq<Sample>) {
    && (forall i :: 0 <= i < |samples| ==> start.lastTime <= samples[i].now)
    && (forall i, j :: 0 <= i <= j < |samples| ==> samples[i].now <= samples[j].now)
  }

  /** The rate is set exactly when some rate was folded in, and then lies between any bounds of those. */
  lemma {:induction false} RateBound(now: real, samples: seq<Sample>, timescale: real, lo: real, hi: real)
    requires timescale > 0.0 && ClockForward(Estimate(now, 0.0, None), samples)
    requires forall r :: r in RatesAt(Estimate(now, 0.0, None), samples, timescale) ==> lo <= r <= hi
    ensures
      var start := Estimate(now, 0.0, None);
      var e := EstimateAt(start, samples, timescale);
      && (e.rate.Some? <==> RatesAt(start, samples, timescale) != [])
      && (e.rate.Some? ==> lo <= e.rate.value <= hi)
      && now <= e.lastTime && (samples != [] ==> e.lastTime <= samples[|samples| - 1].now)
  {
    hide RollingAverage, EstimateAt, RatesAt;
    NoSamples(Estimate(now, 0.0, None), timescale);
    if samples != [] {
      SampleAdded(Estimate(now, 0.0, None), samples, timescale);
      var start := Estimate(now, 0.0, None);
      var init, s := samples[..|samples| - 1], samples[|samples| - 1];
      var before := EstimateAt(start, init, timescale);
      var rates := RatesAt(start, init, timescale);
      if s.amount == 0.0 {
        RateBoundAny(now, init, timescale);
      } else {
        assert forall r :: r in rates ==> r in RatesAt(start, samples, timescale);
        RateBound(now, init, timescale, lo, hi);
        if before.lastAmount == 0.0 {
          return;
        }
        if s.now != before.lastTime {
          var recent := (s.amount - before.lastAmount) / (s.now - before.lastTime);
          assert RatesAt(start, samples, timescale) == rates + [recent];
          assert recent in RatesAt(start, samples, timescale);
        }
        AverageBetween(s.now - before.lastTime, s.amount - before.lastAmount, before.rate, timescale, lo, hi);
      }
    }
  }

  /** The clock part of RateBound needs no bounds on the rates. */
  lemma {:induction false} RateBoundAny(now: real, samples: seq<Sample>, timescale: real)
    requires timescale > 0.0 && ClockForward(Estimate(now, 0.0, None), samples)
    ensures
      var e := EstimateAt(Estimate(now, 0.0, None), samples, timescale);
      now <= e.lastTime && (samples != [] ==> e.lastTime <= samples[|samples| - 1].now)
  {
    if samples != [] { RateBoundAny(now, samples[..|samples| - 1], timescale); }
  }

  /** The new average lies between the recent rate and the old average. */
  lemma AverageBetween(timeDiff: real, readDiff: real, last: Option<real>, timescale: real, lo: real, hi: real)
    requires timescale > 0.0 && timeDiff >= 0.0
    requires timeDiff != 0.0 ==> lo <= readDiff / timeDiff <= hi
    requires last.Some? ==> lo <= last.value <= hi
    ensures var r := RollingAverage(timeDiff, readDiff, last, timescale);
      && (r.Some? <==> last.Some? || timeDiff != 0.0)
      && (r.Some? ==> lo <= r.value <= hi)
  {
    if timeDiff != 0.0 && last.Some? {
      var weight := timeDiff / timescale;
      assert weight >= 0.0;
      Mix(if weight > 1.0 then 1.0 else weight, readDiff / timeDiff, last.value, lo, hi);
    }
  }

  /** After a full timescale only the recent rate counts; before that, each rate counts for its share of the timescale. */
  lemma AverageWeights(timeDiff: real, readDiff: real, last: real, timescale: real)
    requires timescale > 0.0 && timeDiff > 0.0
    ensures
      var r := RollingAverage(timeDiff, readDiff, Some(last), timescale);
      && r.Some?
      && (timeDiff >= timescale ==> r.value == readDiff / timeDiff)
      && (timeDiff <= timescale ==> timescale * r.value == readDiff + (timescale - timeDiff) * last)
    ensures RollingAverage(timeDiff, readDiff, None, timescale) == Some(readDiff / timeDiff)
    ensures RollingAverage(0.0, readDiff, Some(last), timescale) == Some(last)
  {
    var share, rate := timeDiff / timescale, readDiff / timeDiff;
    assert share * timescale == timeDiff && rate * timeDiff == readDiff;
    ShareSize(timeDiff, timescale);
    hide Mixed;
    if timeDiff <= timescale { Shares(timescale, share, rate, last, timeDiff, readDiff); }
    if timeDiff >= timescale { WholeWeight(rate, last); }
  }

  lemma ShareSize(timeDiff: real, timescale: real)
    requires timescale > 0.0
    ensures timeDiff > timescale ==> timeDiff / timescale > 1.0
    ensures timeDiff == timescale ==> timeDiff / timescale == 1.0
    ensures timeDiff < timescale ==> timeDiff / timescale < 1.0
  {
    var share := timeDiff / timescale;
    assert share * timescale == timeDiff;
    if share >= 1.0 { Product(share - 1.0, timescale); }
    if share <= 1.0 { Product(1.0 - share, timescale); }
    if timeDiff < timescale && share >= 1.0 { Product(share - 1.0, timescale); }
  }

  lemma WholeWeight(rate: real, last: real)
    ensures Mixed(1.0, rate, last) == rate
  {
  }

  lemma Shares(timescale: real, share: real, rate: real, last: real, timeDiff: real, readDiff: real)
    requires share * timescale == timeDiff && rate * timeDiff == readDiff
    ensures timescale * Mixed(share, rate, last) == readDiff + (timescale - timeDiff) * last
  {
    assert timescale * (share * rate) == (share * timescale) * rate;
    assert timescale * ((1.0 - share) * last) == (timescale - share * timescale) * last;
  }

  lemma Product(x: real, y: real)
    requires x >= 0.0 && y >= 0.0
    ensures x * y >= 0.0
  {
  }

  lemma Mix(epsilon: real, a: real, b: real, lo: real, hi: real)
    requires 0.0 <= epsilon <= 1.0 && lo <= a <= hi && lo <= b <= hi
    ensures lo <= epsilon * a + (1.0 - epsilon) * b <= hi
  {
    Product(epsilon, a - lo);
    Product(1.0 - epsilon, b - lo);
    Product(epsilon, hi - a);
    Product(1.0 - epsilon, hi - b);
  }

  // ---- MultiFileMeter ----

  /** Meters are numbered in the order of their creation. */
  type Meter = nat

  /**
   * A group of meters and, by number, the last_amount_read and the size of every meter made so far.
   * failedSize is None once a file has failed whose size was not known, or 0.
   */
  datatype Group = Group(meters: seq<Meter>, inProgress: seq<Meter>, amounts: seq<nat>, sizes: seq<Option<nat>>,
                         finished: int, failed: int, open: int, failedSize: Option<nat>, finishedSize: nat)

  const NO_METERS := Group([], [], [], [], 0, 0, 0, Some(0), 0)

  datatype Event =
    | NewMeter
    | RemoveMeter(meter: Meter)
    | StartGroup
    | Begin(meter: Meter, size: Option<nat>)     // BaseMeter.start sets the size, and the amount to 0
    | Read(meter: Meter, amount: nat)            // BaseMeter.update and end set the amount
    | StartMeter(meter: Meter)
    | EndMeter(meter: Meter)
    | FailureMeter(meter: Meter)

  predicate Known(size: Option<nat>) { size.Some? && size.value > 0 }

  /** What an event does to the group. Meters the group does not list are refused, meters not made do not exist. */
  function Applied(g: Group, e: Event): Group {
    match e
    case NewMeter => g.(meters := g.meters + [|g.amounts|], amounts := g.amounts + [0], sizes := g.sizes + [None])
    case RemoveMeter(m) => g.(meters := RemoveFirst(g.meters, m))
    case StartGroup => g.(finished := 0, failed := 0, open := 0, failedSize := Some(0), finishedSize := 0)
    case Begin(m, size) =>
      if m < |g.amounts| && m < |g.sizes| then g.(amounts := g.amounts[m := 0], sizes := g.sizes[m := size]) else g
    case Read(m, amount) => if m < |g.amounts| then g.(amounts := g.amounts[m := amount]) else g
    case StartMeter(m) =>
      if m in g.meters && m !in g.inProgress then g.(inProgress := g.inProgress + [m], open := g.open + 1) else g
    case EndMeter(m) =>
      if m !in g.meters then g
      else g.(inProgress := RemoveFirst(g.inProgress, m), open := g.open - 1, finished := g.finished + 1,
              finishedSize := g.finishedSize + Amount(g, m))
    case FailureMeter(m) =>
      if m !in g.meters then g
      else g.(inProgress := RemoveFirst(g.inProgress, m), open := g.open - 1, failed := g.failed + 1,
              failedSize := if Known(Size(g, m)) && g.failedSize.Some?
                            then Some(g.failedSize.value + Size(g, m).value) else None)
  }

  function Amount(g: Group, m: Meter): nat { if m < |g.amounts| then g.amounts[m] else 0 }

  function Size(g: Group, m: Meter): Option<nat> { if m < |g.sizes| then g.sizes[m] else None }

  /** The group after the first n of these events. */
  function GroupAt(events: seq<Event>, n: nat): Group
    requires n <= |events|
  {
    if n == 0 then NO_METERS else Applied(GroupAt(events, n - 1), events[n - 1])
  }

  /** Each meter is listed once, and in progress once; all of them have been made. */
  ghost predicate Sound(g: Group) {
    && Distinct(g.meters) && Distinct(g.inProgress) && |g.sizes| == |g.amounts|
    && (forall m :: m in g.meters ==> m < |g.amounts|)
    && (forall m :: m in g.inProgress ==> m < |g.amounts|)
  }

  lemma DistinctSnoc(s: seq<Meter>, m: Meter)
    requires Distinct(s) && m !in s
    ensures Distinct(s + [m])
  {
  }

  lemma AppliedSound(g: Group, e: Event)
    requires Sound(g)
    ensures Sound(Applied(g, e))
  {
    match e {
      case NewMeter => DistinctSnoc(g.meters, |g.amounts|);
      case RemoveMeter(m) => RemoveFirstDistinct(g.meters, m);
      case StartMeter(m) => if m !in g.inProgress { DistinctSnoc(g.inProgress, m); }
      case EndMeter(m) => RemoveFirstDistinct(g.inProgress, m);
      case FailureMeter(m) => RemoveFirstDistinct(g.inProgress, m);
      case _ =>
    }
  }

  lemma {:induction false} GroupSound(events: seq<Event>, n: nat)
    requires n <= |events|
    ensures Sound(GroupAt(events, n))
  {
    if n > 0 {
      GroupSound(events, n - 1);
      AppliedSound(GroupAt(events, n - 1), events[n - 1]);
    }
  }

  // ---- The counters over whole runs ----

  predicate Accepted(g: Group, e: Event) {
    match e case StartMeter(m) => m in g.meters case EndMeter(m) => m in g.meters case FailureMeter(m) => m in g.meters
            case _ => true
  }

  /** An end or failure of a meter that the group lists but that is not in progress. */
  predicate Stray(g: Group, e: Event) {
    (e.EndMeter? || e.FailureMeter?) && e.meter in g.meters && e.meter !in g.inProgress
  }

  /** A listed meter that is not in progress is started. */
  predicate Enters(g: Group, e: Event) { e.StartMeter? && e.meter in g.meters && e.meter !in g.inProgress }

  /** How many meters were entered since the group was last started. */
  function Entered(events: seq<Event>, n: nat): nat
    requires n <= |events|
  {
    if n == 0 || events[n - 1].StartGroup? then 0
    else
      var g := GroupAt(events, n - 1);
      var e := events[n - 1];
      Entered(events, n - 1) + if Enters(g, e) then 1 else 0
  }

  /** Where the counting began: just after the last start of the group, or with the first event. */
  function Since(events: seq<Event>, n: nat): (s: nat)
    requires n <= |events|
    ensures s <= n && (s > 0 ==> events[s - 1].StartGroup?)
    ensures forall i :: s <= i < n ==> !events[i].StartGroup?
  {
    if n == 0 || events[n - 1].StartGroup? then n else Since(events, n - 1)
  }

  /** The meters in progress when the counting began, and the stray ends and failures since then. */
  function Drift(events: seq<Event>, n: nat): nat
    requires n <= |events|
  {
    if n == 0 then 0
    else if events[n - 1].StartGroup? then |GroupAt(events, n - 1).inProgress|
    else Drift(events, n - 1) + if Stray(GroupAt(events, n - 1), events[n - 1]) then 1 else 0
  }

  lemma CountersStep(g: Group, e: Event)
    requires !e.StartGroup?
    ensures var h := Applied(g, e);
      && h.open + h.finished + h.failed == g.open + g.finished + g.failed + (if Enters(g, e) then 1 else 0)
      && h.open - |h.inProgress| == g.open - |g.inProgress| - (if Stray(g, e) then 1 else 0)
  {
  }

  lemma StartStep(g: Group)
    ensures var h := Applied(g, StartGroup);
      h.open == h.finished == h.failed == 0 && h.inProgress == g.inProgress && h.failedSize == Some(0)
  {
  }

  lemma AtStart(events: seq<Event>)
    ensures GroupAt(events, 0) == NO_METERS
  {
  }

  lemma AtNext(events: seq<Event>, n: nat)
    requires 0 < n <= |events|
    ensures GroupAt(events, n) == Applied(GroupAt(events, n - 1), events[n - 1])
  {
  }

  /** In every run the counters add up to the meters entered, and open files lag behind by the drift. */
  lemma {:induction false} CountersAddUp(events: seq<Event>, n: nat)
    requires n <= |events|
    ensures var g := GroupAt(events, n);
      && g.open + g.finished + g.failed == Entered(events, n)
      && g.open == |g.inProgress| - Drift(events, n)
  {
    hide Applied, Stray, Enters;
    if n > 0 {
      CountersAddUp(events, n - 1);
      var g, e := GroupAt(events, n - 1), events[n - 1];
      if e.StartGroup? { StartStep(g); } else { CountersStep(g, e); }
    }
  }

  lemma {:induction false} NoDrift(events: seq<Event>, n: nat)
    requires n <= |events|
    ensures
      var s := Since(events, n);
      Drift(events, n) == 0 <==>
        && GroupAt(events, s).inProgress == []
        && forall i :: s <= i < n ==> !Stray(GroupAt(events, i), events[i])
  {
    hide GroupAt, Stray;
    AtStart(events);
    if n > 0 {
      if events[n - 1].StartGroup? {
        StartStep(GroupAt(events, n - 1));
        AtNext(events, n);
      } else {
        NoDrift(events, n - 1);
      }
    }
  }

  /**
   * open_files is the number of meters in progress exactly when none was in progress as the group was started
   * and all ends and failures since then hit meters in progress.
   */
  lemma OpenFilesExact(events: seq<Event>, n: nat)
    requires n <= |events|
    ensures
      var g, s := GroupAt(events, n), Since(events, n);
      g.open == |g.inProgress| <==>
        && GroupAt(events, s).inProgress == []
        && forall i :: s <= i < n ==> !Stray(GroupAt(events, i), events[i])
  {
    CountersAddUp(events, n);
    NoDrift(events, n);
  }

  /** The sizes of the files that failed among the events from s to n. */
  function FailedBytes(events: seq<Event>, s: nat, n: nat): nat
    requires s <= n <= |events|
    decreases n
  {
    if s == n then 0
    else
      var g := GroupAt(events, n - 1);
      var e := events[n - 1];
      FailedBytes(events, s, n - 1)
      + if e.FailureMeter? && e.meter in g.meters && Known(Size(g, e.meter)) then Size(g, e.meter).value else 0
  }

  lemma FailedStep(g: Group, e: Event)
    requires !e.StartGroup?
    ensures Applied(g, e).failedSize ==
      if !e.FailureMeter? || e.meter !in g.meters then g.failedSize
      else if Known(Size(g, e.meter)) && g.failedSize.Some? then Some(g.failedSize.value + Size(g, e.meter).value)
      else None
  {
  }

  /** failed_size is known exactly if the size of every failed file was, and is their sum then. */
  lemma {:induction false} FailedSizeExact(events: seq<Event>, n: nat)
    requires n <= |events|
    ensures
      var s, f := Since(events, n), GroupAt(events, n).failedSize;
      && (f.Some? <==> forall i :: s <= i < n && events[i].FailureMeter? && Accepted(GroupAt(events, i), events[i]) ==>
                         Known(Size(GroupAt(events, i), events[i].meter)))
      && (f.Some? ==> f.value == FailedBytes(events, s, n))
  {
    hide GroupAt, Applied, Known, Size;
    AtStart(events);
    if n > 0 {
      var g, e := GroupAt(events, n - 1), events[n - 1];
      AtNext(events, n);
      if e.StartGroup? {
        StartStep(g);
      } else {
        FailedSizeExact(events, n - 1);
        FailedStep(g, e);
      }
    }
  }

  // ---- The bytes ----

  function Sum(meters: seq<Meter>, amounts: seq<nat>): nat {
    if meters == [] then 0
    else (if meters[0] < |amounts| then amounts[meters[0]] else 0) + Sum(meters[1..], amounts)
  }

  function Total(g: Group): nat { g.finishedSize + Sum(g.inProgress, g.amounts) }

  lemma {:induction false} SumRemove(meters: seq<Meter>, amounts: seq<nat>, m: Meter)
    requires m in meters
    ensures Sum(RemoveFirst(meters, m), amounts) + (if m < |amounts| then amounts[m] else 0) == Sum(meters, amounts)
  {
    RemoveFirstCons(meters, m);
    hide RemoveFirst;
    if meters[0] != m {
      SumRemove(meters[1..], amounts, m);
      assert RemoveFirst(meters, m)[1..] == RemoveFirst(meters[1..], m);
    }
  }

  lemma {:induction false} SumAppend(meters: seq<Meter>, amounts: seq<nat>, m: Meter)
    ensures Sum(meters + [m], amounts) == Sum(meters, amounts) + if m < |amounts| then amounts[m] else 0
  {
    if meters == [] {
      assert Sum([m], amounts) == (if m < |amounts| then amounts[m] else 0) + Sum([m][1..], amounts);
    } else {
      SumAppend(meters[1..], amounts, m);
      assert (meters + [m])[1..] == meters[1..] + [m];
    }
  }

  lemma {:induction false} SumFrame(meters: seq<Meter>, a: seq<nat>, b: seq<nat>)
    requires forall m :: m in meters ==> m < |a| && m < |b| && a[m] == b[m]
    ensures Sum(meters, a) == Sum(meters, b)
  {
    if meters != [] {
      forall m | m in meters[1..] ensures m in meters { }
      SumFrame(meters[1..], a, b);
    }
  }

  lemma SumUpdate(meters: seq<Meter>, amounts: seq<nat>, m: Meter, amount: nat)
    requires Distinct(meters) && m < |amounts| && forall k :: k in meters ==> k < |amounts|
    ensures Sum(meters, amounts[m := amount]) + (if m in meters then amounts[m] else 0)
         == Sum(meters, amounts) + if m in meters then amount else 0
  {
    RemoveFirstDistinct(meters, m);
    SumFrame(RemoveFirst(meters, m), amounts, amounts[m := amount]);
    if m in meters {
      SumRemove(meters, amounts, m);
      SumRemove(meters, amounts[m := amount], m);
    }
  }

  /** By how much an event changes the bytes read: ending a meter in progress does not change them. */
  function Gain(g: Group, e: Event): int {
    match e
    case NewMeter => 0
    case RemoveMeter(_) => 0
    case StartGroup => 0 - g.finishedSize
    case Begin(m, _) => if m in g.inProgress then 0 - Amount(g, m) else 0
    case Read(m, amount) => if m in g.inProgress then amount - Amount(g, m) else 0
    case StartMeter(m) => if m in g.meters && m !in g.inProgress then Amount(g, m) else 0
    case EndMeter(m) => if m in g.meters && m !in g.inProgress then Amount(g, m) else 0
    case FailureMeter(m) => if m in g.meters && m in g.inProgress then 0 - Amount(g, m) else 0
  }

  /** _amount_read changes with reads of meters in progress, with failures, and with strays; never with a proper end. */
  lemma TotalStep(g: Group, e: Event)
    requires Sound(g)
    ensures Total(Applied(g, e)) == Total(g) + Gain(g, e)
  {
    match e {
      case NewMeter => SumFrame(g.inProgress, g.amounts, g.amounts + [0]);
      case RemoveMeter(_) =>
      case StartGroup =>
      case Begin(m, _) => if m < |g.amounts| { SumUpdate(g.inProgress, g.amounts, m, 0); }
      case Read(m, amount) => if m < |g.amounts| { SumUpdate(g.inProgress, g.amounts, m, amount); }
      case StartMeter(m) => SumAppend(g.inProgress, g.amounts, m);
      case EndMeter(m) => if m in g.inProgress { SumRemove(g.inProgress, g.amounts, m); }
      case FailureMeter(m) => if m in g.inProgress { SumRemove(g.inProgress, g.amounts, m); }
    }
  }

  function Gains(events: seq<Event>, n: nat): int
    requires n <= |events|
  {
    if n == 0 then 0 else Gains(events, n - 1) + Gain(GroupAt(events, n - 1), events[n - 1])
  }

  /** So in every run the bytes read are the sum of those changes. */
  lemma {:induction false} TotalAddsUp(events: seq<Event>, n: nat)
    requires n <= |events|
    ensures Total(GroupAt(events, n)) == Gains(events, n)
  {
    if n > 0 {
      TotalAddsUp(events, n - 1);
      GroupSound(events, n - 1);
      TotalStep(GroupAt(events, n - 1), events[n - 1]);
    }
  }

  datatype MeterError = Orphaned | NotListed

  class MultiFileMeter {
    var meters: seq<Meter>
    var inProgress: seq<Meter>
    var amounts: seq<nat>             // last_amount_read and size of all meters made
    var sizes: seq<Option<nat>>
    var finishedFiles: int
    var failedFiles: int
    var openFiles: int
    var failedSize: Option<nat>
    var finishedFileSize: nat

    ghost function State(): Group
      reads this
    {
      Group(meters, inProgress, amounts, sizes, finishedFiles, failedFiles, openFiles, failedSize, finishedFileSize)
    }

    constructor ()
      ensures State() == NO_METERS
    {
      meters, inProgress, amounts, sizes := [], [], [], [];
      finishedFiles, failedFiles, openFiles, failedSize, finishedFileSize := 0, 0, 0, Some(0), 0;
    }

    method NewMeter() returns (meter: Meter)
      modifies this
      ensures State() == Applied(old(State()), Event.NewMeter) && meter in meters && meter == |old(amounts)|
      ensures amounts == old(amounts) + [0] && inProgress == old(inProgress)
    {
      meter := |amounts|;
      amounts, sizes := amounts + [0], sizes + [None];
      meters := meters + [meter];
    }

    method RemoveMeter(meter: Meter) returns (r: Result<(), MeterError>)
      modifies this
      ensures State() == Applied(old(State()), Event.RemoveMeter(meter)) && (r.Err? <==> meter !in old(meters))
      ensures r.Err? ==> State() == old(State())
    {
      if meter !in meters {
        return Err(NotListed);
      }
      meters := RemoveFirst(meters, meter);
      return Ok(());
    }

    /** start() resets the counters but not the list of meters in progress. */
    method Start()
      modifies this
      ensures State() == Applied(old(State()), Event.StartGroup)
    {
      finishedFiles, failedFiles, openFiles, failedSize, finishedFileSize := 0, 0, 0, Some(0), 0;
    }

    method BeginMeter(meter: Meter, size: Option<nat>)
      requires meter < |amounts| == |sizes|
      modifies this
      ensures State() == Applied(old(State()), Event.Begin(meter, size))
      ensures amounts == old(amounts)[meter := 0] && sizes == old(sizes)[meter := size] && inProgress == old(inProgress)
    {
      sizes := sizes[meter := size];
      amounts := amounts[meter := 0];
    }

    method SetAmount(meter: Meter, amount: nat)
      requires meter < |amounts|
      modifies this
      ensures State() == Applied(old(State()), Event.Read(meter, amount))
      ensures amounts == old(amounts)[meter := amount] && inProgress == old(inProgress)
    {
      amounts := amounts[meter := amount];
    }

    method StartMeter(meter: Meter) returns (r: Result<(), MeterError>)
      modifies this
      ensures State() == Applied(old(State()), Event.StartMeter(meter)) && (r.Err? <==> meter !in meters)
      ensures r.Err? ==> State() == old(State())
    {
      if meter !in meters {
        return Err(Orphaned);
      }
      if meter !in inProgress {
        inProgress := inProgress + [meter];
        openFiles := openFiles + 1;
      }
      return Ok(());
    }

    method EndMeter(meter: Meter) returns (r: Result<(), MeterError>)
      requires Sound(State())
      modifies this
      ensures State() == Applied(old(State()), Event.EndMeter(meter)) && (r.Err? <==> meter !in meters)
      ensures r.Err? ==> State() == old(State())
      ensures Sound(State()) && (meter in old(inProgress) ==> Total(State()) == Total(old(State())))
    {
      AppliedSound(State(), Event.EndMeter(meter));
      TotalStep(State(), Event.EndMeter(meter));
      if meter !in meters {
        return Err(Orphaned);
      }
      inProgress := RemoveFirst(inProgress, meter);
      openFiles := openFiles - 1;
      finishedFiles := finishedFiles + 1;
      finishedFileSize := finishedFileSize + amounts[meter];
      return Ok(());
    }

    method FailureMeter(meter: Meter) returns (r: Result<(), MeterError>)
      requires Sound(State())
      modifies this
      ensures State() == Applied(old(State()), Event.FailureMeter(meter)) && (r.Err? <==> meter !in meters)
      ensures r.Err? ==> State() == old(State())
      ensures finishedFileSize == old(finishedFileSize) && amounts == old(amounts)
      ensures r.Ok? && meter in old(inProgress) ==> Total(State()) == Total(old(State())) - amounts[meter]
    {
      TotalStep(State(), Event.FailureMeter(meter));
      if meter !in meters {
        return Err(Orphaned);
      }
      inProgress := RemoveFirst(inProgress, meter);
      openFiles := openFiles - 1;
      failedFiles := failedFiles + 1;
      if Known(sizes[meter]) && failedSize.Some? {
        failedSize := Some(failedSize.value + sizes[meter].value);
      } else {
        failedSize := None;
      }
      return Ok(());
    }

    /** _amount_read */
    method AmountRead() returns (tot: nat)
      requires Sound(State())
      ensures tot == Total(State())
    {
      tot := finishedFileSize;
      var i := 0;
      while i < |inProgress|
        invariant 0 <= i <= |inProgress|
        invariant tot + Sum(inProgress[i..], amounts) == Total(State())
      {
        assert inProgress[i..][1..] == inProgress[i + 1..] && inProgress[i] in inProgress;
        tot := tot + amounts[inProgress[i]];
        i := i + 1;
      }
    }
  }
}
