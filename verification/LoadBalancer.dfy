/** loadbalancer.py: the same reader, whose messages drive a debounced reload. */
module LoadBalancer {
  import opened Wrappers

  const DELAY: real := 0.5

  /**
   * main's timer, over the times at which messages arrive: each message cancels the running timer, if it
   * has not fired yet, and starts a new one. Returns the times at which the configuration is reloaded.
   */
  method Debounce(arrivals: seq<real>) returns (reloads: seq<real>)
    ensures reloads == Reloads(arrivals)
  {
    hide Pending;
    reloads := [];
    var timer: Option<real> := None;
    var i := 0;
    assert arrivals[i..] == arrivals;
    while i < |arrivals|
      invariant 0 <= i <= |arrivals|
      invariant timer == (if i == 0 then None else Some(arrivals[i - 1] + DELAY))
      invariant reloads + Pending(timer, arrivals[i..]) == Reloads(arrivals)
    {
      if timer.Some? && timer.value <= arrivals[i] {
        reloads := reloads + [timer.value];
      }
      assert arrivals[i..][1..] == arrivals[i + 1..];
      PendingNext(timer, arrivals[i..]);
      timer := Some(arrivals[i] + DELAY);
      i := i + 1;
    }
    assert arrivals[i..] == [];
    PendingLast(timer);
    if timer.Some? {
      reloads := reloads + [timer.value];
    }
  }

  lemma PendingNext(timer: Option<real>, arrivals: seq<real>)
    requires arrivals != []
    ensures Pending(timer, arrivals)
         == (if timer.Some? && timer.value <= arrivals[0] then [timer.value] else [])
            + Pending(Some(arrivals[0] + DELAY), arrivals[1..])
  {
  }

  lemma PendingLast(timer: Option<real>)
    ensures Pending(timer, []) == if timer.None? then [] else [timer.value]
  {
  }

  /** The reloads still to come when a timer is running (or none) and these messages are still to arrive. */
  function Pending(timer: Option<real>, arrivals: seq<real>): seq<real>
    decreases |arrivals|
  {
    if arrivals == [] then (if timer.None? then [] else [timer.value])
    else (if timer.Some? && timer.value <= arrivals[0] then [timer.value] else [])
         + Pending(Some(arrivals[0] + DELAY), arrivals[1..])
  }

  function Reloads(arrivals: seq<real>): seq<real> { Pending(None, arrivals) }

  /** Message i is followed by silence. */
  ghost predicate Quiet(arrivals: seq<real>, i: nat)
    requires i < |arrivals|
  {
    forall j :: i < j < |arrivals| ==> arrivals[j] >= arrivals[i] + DELAY
  }

  ghost predicate Ordered(arrivals: seq<real>) { forall i, j :: 0 <= i <= j < |arrivals| ==> arrivals[i] <= arrivals[j] }

  /** A reload at time t is due to a message that ends a burst. */
  ghost predicate BurstEnds(arrivals: seq<real>, t: real) {
    exists i :: 0 <= i < |arrivals| && Quiet(arrivals, i) && t == arrivals[i] + DELAY
  }

  ghost predicate NothingBefore(arrivals: seq<real>, t: real) { forall j :: 0 <= j < |arrivals| ==> arrivals[j] >= t }

  lemma QuietTail(arrivals: seq<real>, i: nat)
    requires i + 1 < |arrivals|
    ensures Quiet(arrivals[1..], i) <==> Quiet(arrivals, i + 1)
  {
    var more := arrivals[1..];
    if Quiet(more, i) {
      forall j | i + 1 < j < |arrivals| ensures arrivals[j] >= arrivals[i + 1] + DELAY {
        assert more[j - 1] >= more[i] + DELAY;
      }
    }
    if Quiet(arrivals, i + 1) {
      forall j | i < j < |more| ensures more[j] >= more[i] + DELAY {
        assert arrivals[j + 1] >= arrivals[i + 1] + DELAY;
      }
    }
  }

  /** A burst of the messages ends with the first of them, or where a burst of the others does. */
  lemma BurstEndsTail(arrivals: seq<real>, t: real)
    requires arrivals != []
    ensures BurstEnds(arrivals, t)
       <==> BurstEnds(arrivals[1..], t) || (t == arrivals[0] + DELAY && NothingBefore(arrivals[1..], t))
  {
    var more := arrivals[1..];
    if BurstEnds(arrivals, t) {
      var i :| 0 <= i < |arrivals| && Quiet(arrivals, i) && t == arrivals[i] + DELAY;
      if i > 0 { QuietTail(arrivals, i - 1); }
    }
    if BurstEnds(more, t) {
      var i :| 0 <= i < |more| && Quiet(more, i) && t == more[i] + DELAY;
      QuietTail(arrivals, i);
    }
    if t == arrivals[0] + DELAY && NothingBefore(more, t) {
      forall j | 0 < j < |arrivals| ensures arrivals[j] >= arrivals[0] + DELAY { assert more[j - 1] >= t; }
      assert Quiet(arrivals, 0);
    }
  }

  /** Reloads happen exactly DELAY after the messages that end a burst. */
  lemma {:induction false} PendingExact(timer: Option<real>, arrivals: seq<real>, t: real)
    requires Ordered(arrivals)
    ensures t in Pending(timer, arrivals)
       <==> (timer == Some(t) && NothingBefore(arrivals, t)) || BurstEnds(arrivals, t)
    decreases |arrivals|
  {
    if arrivals != [] {
      assert NothingBefore(arrivals, t) <==> arrivals[0] >= t;
      PendingExact(Some(arrivals[0] + DELAY), arrivals[1..], t);
      BurstEndsTail(arrivals, t);
      hide BurstEnds, NothingBefore, Ordered;
    }
  }

  /** Reloads happen exactly half a second after those messages that no other follows within half a second. */
  lemma ReloadsExact(arrivals: seq<real>, t: real)
    requires Ordered(arrivals)
    ensures t in Reloads(arrivals) <==>
      exists i :: 0 <= i < |arrivals| && t == arrivals[i] + 0.5
                  && forall j :: i < j < |arrivals| ==> arrivals[j] >= arrivals[i] + 0.5
  {
    PendingExact(None, arrivals, t);
    if BurstEnds(arrivals, t) {
      var i :| 0 <= i < |arrivals| && Quiet(arrivals, i) && t == arrivals[i] + DELAY;
      assert forall j :: i < j < |arrivals| ==> arrivals[j] >= arrivals[i] + 0.5;
    }
    if i :| 0 <= i < |arrivals| && t == arrivals[i] + 0.5
            && forall j :: i < j < |arrivals| ==> arrivals[j] >= arrivals[i] + 0.5 {
      assert Quiet(arrivals, i);
    }
  }

  /** In order, and half a second apart at least. */
  ghost predicate Apart(times: seq<real>) { forall i, j :: 0 <= i < j < |times| ==> times[i] + 0.5 <= times[j] }

  /** Reloads are half a second apart: a burst is never answered twice. */
  lemma {:induction false} PendingApart(timer: Option<real>, arrivals: seq<real>)
    requires Ordered(arrivals)
    ensures
      var reloads := Pending(timer, arrivals);
      && Apart(reloads)
      && (forall i :: 0 <= i < |reloads| ==>
            (i == 0 && timer == Some(reloads[i]) && (arrivals == [] || timer.value <= arrivals[0]))
            || (arrivals != [] && reloads[i] >= arrivals[0] + 0.5))
    decreases |arrivals|
  {
    if arrivals != [] {
      PendingNext(timer, arrivals);
      PendingApart(Some(arrivals[0] + DELAY), arrivals[1..]);
      hide Pending;
    }
  }

  lemma ReloadsApart(arrivals: seq<real>)
    requires Ordered(arrivals)
    ensures Apart(Reloads(arrivals))
  {
    PendingApart(None, arrivals);
  }

  /** No message is missed: every one is followed by a reload at least DELAY later. */
  lemma EveryMessageReloads(arrivals: seq<real>, i: nat)
    requires Ordered(arrivals) && i < |arrivals|
    ensures exists t :: t in Reloads(arrivals) && t >= arrivals[i] + DELAY
  {
    var last := |arrivals| - 1;
    assert Quiet(arrivals, last) && arrivals[i] <= arrivals[last];
    ReloadsExact(arrivals, arrivals[last] + DELAY);
  }
}
