/** mirror.py: the private mirror list of a request, the shared master list, and the failover loop. */
module Mirrors {
  import opened Wrappers
  import opened Sequences
  import opened Retrying

  type Mirror = string

  /** A mirror list and the index of the mirror to use next. */
  datatype Ring = Ring(mirrors: seq<Mirror>, next: nat)

  ghost predicate InRange(r: Ring) { r.next < |r.mirrors| || r.next == 0 }

  function Wrapped(r: Ring): Ring { if r.next >= |r.mirrors| then r.(next := 0) else r }

  /** A failure action: the keys that are set. Values 1 and 2 are both "true" here. */
  datatype Action = Action(increment: Option<bool>, incrementMaster: Option<bool>,
                           remove: Option<bool>, removeMaster: Option<bool>, fail: Option<bool>)

  const NO_ACTION := Action(None, None, None, None, None)

  function Or<T>(a: Option<T>, b: Option<T>): Option<T> { if a.Some? then a else b }

  function Get(a: Option<bool>, default: bool): bool { if a.Some? then a.value else default }

  /** dict.update: the keys of b override those of a. */
  function Update(a: Action, b: Action): Action {
    Action(Or(b.increment, a.increment), Or(b.incrementMaster, a.incrementMaster),
           Or(b.remove, a.remove), Or(b.removeMaster, a.removeMaster), Or(b.fail, a.fail))
  }

  function Removes(a: Action): bool { Get(a.remove, true) }
  function Fails(a: Action): bool { Get(a.fail, false) }

  /** What a failure report for mirror `bad` does to the master list. */
  function Reported(m: Ring, bad: Mirror, a: Action): Ring {
    if bad !in m.mirrors then m
    else
      var ind := IndexOf(m.mirrors, bad);
      Wrapped(
        if Get(a.removeMaster, false) then m.(mirrors := DeleteAt(m.mirrors, ind))
        else if m.next == ind && Get(a.incrementMaster, true) then m.(next := m.next + 1)
        else m)
  }

  /** What the same failure does to the request's own list. */
  function MovedOn(r: Ring, a: Action): Ring
    requires r.next < |r.mirrors|
  {
    Wrapped(
      if Removes(a) then r.(mirrors := DeleteAt(r.mirrors, r.next))
      else if Get(a.increment, true) then r.(next := r.next + 1)
      else r)
  }

  lemma ReportedInRange(m: Ring, bad: Mirror, a: Action)
    requires InRange(m)
    ensures InRange(Reported(m, bad, a))
  {
  }

  /** Two failure reports in a row for the same mirror under the default action move the master list on once. */
  lemma DoubleReport(m: Ring, bad: Mirror, a: Action)
    requires InRange(m) && !Get(a.removeMaster, false)
    ensures Reported(Reported(m, bad, a), bad, a) == Reported(m, bad, a)
  {
  }

  /**
   * Removing a master mirror keeps the index pointing at the same mirror exactly when the removed one comes
   * later, or is the first of two while the second is in use.
   */
  lemma RemoveMasterShifts(m: Ring, bad: Mirror, a: Action)
    requires Distinct(m.mirrors) && m.next < |m.mirrors| && bad in m.mirrors && Get(a.removeMaster, false)
    ensures
      var after := Reported(m, bad, a);
      var ind := IndexOf(m.mirrors, bad);
      (after.mirrors != [] && after.mirrors[after.next] == m.mirrors[m.next])
        <==> ind > m.next || (|m.mirrors| == 2 && ind == 0 && m.next == 1)
  {
    var after := Reported(m, bad, a);
    var ind := IndexOf(m.mirrors, bad);
    if ind < m.next && m.next == |m.mirrors| - 1 {
      assert after.next == 0;
      assert after.mirrors[0] == if ind == 0 then m.mirrors[1] else m.mirrors[0];
    }
  }

  /**
   * What the keys of an action mean for the request; a key that is not set means yes. The mirror goes, or else the
   * index moves on, in a circle.
   */
  ghost predicate MovesRequest(was: Ring, now: Ring, a: Action)
    requires was.next < |was.mirrors|
  {
    && (a.remove != Some(false) ==>
          now == Ring(was.mirrors[..was.next] + was.mirrors[was.next + 1..],
                      if was.next + 1 < |was.mirrors| then was.next else 0))
    && (a.remove == Some(false) ==>
          now == was.(next := if a.increment == Some(false) then was.next
                              else if was.next + 1 < |was.mirrors| then was.next + 1 else 0))
  }

  /**
   * And for the master list, where only remove_master means no if it is not set. The first occurrence of the
   * mirror goes; or else, if the index is on it, the index moves on.
   */
  ghost predicate MovesMaster(was: Ring, now: Ring, bad: Mirror, a: Action) {
    && (bad !in was.mirrors ==> now == was)
    && (a.removeMaster != Some(true) ==> now.mirrors == was.mirrors)
    && (a.removeMaster == Some(true) ==>
          forall i :: 0 <= i < |was.mirrors| && was.mirrors[i] == bad && bad !in was.mirrors[..i] ==>
            now == Ring(was.mirrors[..i] + was.mirrors[i + 1..], if was.next < |was.mirrors| - 1 then was.next else 0))
    && (a.removeMaster != Some(true) && was.next < |was.mirrors| ==>
          now.next == if was.mirrors[was.next] == bad && bad !in was.mirrors[..was.next]
                         && a.incrementMaster != Some(false)
                      then (if was.next + 1 < |was.mirrors| then was.next + 1 else 0)
                      else was.next)
  }

  lemma RequestMoves(r: Ring, a: Action)
    requires r.next < |r.mirrors|
    ensures MovesRequest(r, MovedOn(r, a), a)
  {
  }

  lemma MasterKeeps(m: Ring, bad: Mirror, a: Action)
    ensures MovesMaster(m, Reported(m, bad, a), bad, a)
  {
    if bad in m.mirrors && a.removeMaster == Some(true) {
      forall i | 0 <= i < |m.mirrors| && m.mirrors[i] == bad && bad !in m.mirrors[..i]
        ensures Reported(m, bad, a)
             == Ring(m.mirrors[..i] + m.mirrors[i + 1..], if m.next < |m.mirrors| - 1 then m.next else 0)
      {
        FirstIndex(m.mirrors, bad, i);
      }
      hide Reported;
    } else if bad in m.mirrors && m.next < |m.mirrors| && m.mirrors[m.next] == bad && bad !in m.mirrors[..m.next] {
      FirstIndex(m.mirrors, bad, m.next);
    }
  }

  lemma FirstIndex(s: seq<Mirror>, x: Mirror, i: nat)
    requires i < |s| && s[i] == x && x !in s[..i]
    ensures i == IndexOf(s, x)
  {
    var j := IndexOf(s, x);
    assert forall k :: 0 <= k < j ==> s[k] in s[..j];
    assert forall k :: 0 <= k < i ==> s[k] in s[..i];
  }

  class GrabRequest {
    var mirrors: seq<Mirror>
    var next: nat

    ghost function State(): Ring
      reads this
    {
      Ring(mirrors, next)
    }

    constructor ()
    {
      mirrors, next := [], 0;
    }
  }

  class MirrorGroup {
    const defaultAction: Action
    var mirrors: seq<Mirror>
    var next: nat

    ghost function State(): Ring
      reads this
    {
      Ring(mirrors, next)
    }

    constructor (mirrors: seq<Mirror>, defaultAction: Action)
      ensures State() == Ring(mirrors, 0) && this.defaultAction == defaultAction
    {
      this.mirrors, this.next, this.defaultAction := mirrors, 0, defaultAction;
    }

    method LoadGr(gr: GrabRequest)
      modifies gr
      ensures gr.State() == State()
    {
      gr.mirrors := mirrors;
      gr.next := next;
    }

    method GetMirror(gr: GrabRequest) returns (r: Result<Mirror, Exception>)
      requires InRange(gr.State())
      ensures r == if gr.mirrors == [] then Err(Grab(256)) else Ok(gr.mirrors[gr.next])
    {
      if gr.mirrors == [] {
        return Err(Grab(256));
      }
      return Ok(gr.mirrors[gr.next]);
    }

    method IncrementMirror(gr: GrabRequest, action: Action)
      requires gr.next < |gr.mirrors|
      modifies this, gr
      ensures State() == Reported(old(State()), old(gr.mirrors[gr.next]), action)
      ensures gr.State() == MovedOn(old(gr.State()), action)
      ensures MovesRequest(old(gr.State()), gr.State(), action)
      ensures MovesMaster(old(State()), State(), old(gr.mirrors[gr.next]), action)
      ensures action.remove.None? || action.remove == Some(true) ==> |gr.mirrors| == |old(gr.mirrors)| - 1
      ensures action.remove == Some(false) ==> gr.mirrors == old(gr.mirrors)
    {
      RequestMoves(gr.State(), action);
      MasterKeeps(State(), gr.mirrors[gr.next], action);
      hide IndexOf, DeleteAt, Get, MovesRequest, MovesMaster;
      var badmirror := gr.mirrors[gr.next];
      if badmirror in mirrors {
        var ind := IndexOf(mirrors, badmirror);
        if Get(action.removeMaster, false) {
          mirrors := DeleteAt(mirrors, ind);
        } else if next == ind && Get(action.incrementMaster, true) {
          next := next + 1;
        }
        if next >= |mirrors| {
          next := 0;
        }
      }
      if Get(action.remove, true) {
        gr.mirrors := DeleteAt(gr.mirrors, gr.next);
      } else if Get(action.increment, true) {
        gr.next := gr.next + 1;
      }
      if gr.next >= |gr.mirrors| {
        gr.next := 0;
      }
    }

    /**
     * _mirror_try with nothing else going on. `world` says what grabbing and the failure callback do;
     * `tried` lists the mirrors in the order in which they were tried, `fetches` counts all attempts of all of them.
     * The loop ends exactly if some round ends it; `bound` is such a round.
     */
    method MirrorTry<T>(world: World<T>, requestAction: Action, ghost bound: nat)
      returns (r: Result<T, Exception>, tried: seq<Mirror>, fetches: nat)
      requires InRange(State()) && Bounded(world.options)
      requires Ends(State(), world, Update(defaultAction, requestAction), bound)
      modifies this
      ensures Followed(old(State()), world, Update(defaultAction, requestAction), tried, r)
      ensures State() == MasterAt(old(State()), world, Update(defaultAction, requestAction), Failures(world, tried))
      ensures |tried| <= fetches <= |tried| * MaxTries(world.options)
    {
      hide RingAt, MasterAt, Reported, MovedOn, ActionAt, Fetched, Update, Or, StopsAt, MovesRequest, MovesMaster,
        Bounded, MaxTries, Get, Wrapped, Followed, GoneOn, Ends, FailsAt, Stops, Answer, Failures;
      ghost var snapshot := State();
      ghost var base := Update(defaultAction, requestAction);
      var gr := new GrabRequest();
      LoadGr(gr);
      NoRounds(snapshot, world, base);
      tried, fetches := [], 0;
      while true
        invariant gr.State() == RingAt(snapshot, world, base, |tried|) && InRange(gr.State())
        invariant |tried| <= bound && GoneOn(snapshot, world, base, tried)
        invariant State() == MasterAt(snapshot, world, base, |tried|)
        invariant |tried| <= fetches <= |tried| * MaxTries(world.options)
        decreases bound - |tried|
      {
        ghost var before, ring, master := tried, gr.State(), State();
        var k := |tried|;
        var choice := GetMirror(gr);
        if choice.Err? {
          RanOut(snapshot, world, base, tried);
          return Err(choice.error), tried, fetches;
        }
        var mirror := choice.value;
        var grabbed, tries := GrabFrom(world, k, mirror);
        tried := tried + [mirror];
        fetches := fetches + tries;
        CountFetches(k, tries, MaxTries(world.options));
        RoundOver(snapshot, world, base, before, mirror, bound);
        if grabbed.Ok? || !grabbed.error.Grab? {
          return grabbed, tried, fetches;
        }
        var reaction := world.callback(k, mirror);
        if reaction.Raises? {
          return Err(reaction.exception), tried, fetches;
        }
        var action := Update(Update(defaultAction, requestAction), reaction.action);
        ActionOf(world, base, k, mirror);
        IncrementMirror(gr, action);
        NextRound(snapshot, world, base, k, ring, master, mirror);
        if Fails(action) {
          return grabbed, tried, fetches;
        }
      }
    }
  }

  /** These were the current mirrors of the rounds so far, and none of them ended the loop. */
  ghost predicate GoneOn<T>(snapshot: Ring, w: World<T>, base: Action, tried: seq<Mirror>)
    requires Bounded(w.options)
  {
    Tried(snapshot, w, base, tried) && forall k :: 0 <= k < |tried| ==> !Ends(snapshot, w, base, k)
  }

  lemma RanOut<T>(snapshot: Ring, w: World<T>, base: Action, tried: seq<Mirror>)
    requires Bounded(w.options) && GoneOn(snapshot, w, base, tried)
    requires Current(RingAt(snapshot, w, base, |tried|)).None?
    ensures Followed(snapshot, w, base, tried, Err(Grab(256))) && Failures(w, tried) == |tried|
  {
    hide RingAt, Fetched, ActionAt;
    if tried != [] { assert !Ends(snapshot, w, base, |tried| - 1); }
  }

  /** One more round: it ends the loop with its answer, or the loop has gone on through it. */
  lemma RoundOver<T>(snapshot: Ring, w: World<T>, base: Action, before: seq<Mirror>, m: Mirror, bound: nat)
    requires Bounded(w.options) && GoneOn(snapshot, w, base, before) && |before| <= bound
    requires Ends(snapshot, w, base, bound) && Current(RingAt(snapshot, w, base, |before|)) == Some(m)
    ensures
      var k, tried, r := |before|, before + [m], Fetched(w, |before|, m);
      if r.Ok? || !r.error.Grab? then Followed(snapshot, w, base, tried, r) && Failures(w, tried) == k
      else if w.callback(k, m).Raises? then
        Followed(snapshot, w, base, tried, Err(w.callback(k, m).exception)) && Failures(w, tried) == k
      else
        && Failures(w, tried) == k + 1
        && if Fails(ActionAt(w, base, k, m)) then Followed(snapshot, w, base, tried, r)
           else GoneOn(snapshot, w, base, tried) && k < bound
  {
    hide RingAt, Fetched, ActionAt;
    var k, tried := |before|, before + [m];
    assert Tried(snapshot, w, base, tried);
    assert tried[k] == m;
    if FailsAt(w, k, m) && !Stops(w, base, k, m) {
      assert !Ends(snapshot, w, base, k);
      forall i | 0 <= i < |tried| ensures !Ends(snapshot, w, base, i) { }
    }
  }

  /** One round: the grabber's own retry loop on one mirror. */
  method GrabFrom<T>(world: World<T>, round: nat, mirror: Mirror) returns (r: Result<T, Exception>, tries: nat)
    requires Bounded(world.options)
    ensures r == Fetched(world, round, mirror) && 1 <= tries <= MaxTries(world.options)
    ensures StopsAt(world.options, world.attempt(round, mirror), tries)
  {
    var attempt := world.attempt(round, mirror);
    LastTryStops(world.options, attempt(MaxTries(world.options)));
    r, tries := Retry(world.options, attempt, MaxTries(world.options));
    RetriedIs(world.options, attempt, tries);
  }

  lemma NoRounds<T>(snapshot: Ring, w: World<T>, base: Action)
    ensures RingAt(snapshot, w, base, 0) == snapshot == MasterAt(snapshot, w, base, 0)
    ensures Bounded(w.options) ==> GoneOn(snapshot, w, base, [])
  {
  }

  /** What the group's failure callback does: returns an action, or raises, perhaps the exception it was given. */
  datatype Reaction = Acts(action: Action) | Raises(exception: Exception)

  /** Everything a request meets: the outcome of every attempt on every mirror, and the callback's reactions, by round. */
  datatype World<!T> = World(options: Options,
                             attempt: (nat, Mirror) -> nat -> Attempt<T>,
                             callback: (nat, Mirror) -> Reaction)

  /** The action of a failure: the callback's answer over the request's default_action over the group's. */
  function ActionAt<T>(w: World<T>, base: Action, round: nat, m: Mirror): Action {
    match w.callback(round, m) case Acts(a) => Update(base, a) case Raises(_) => NO_ACTION
  }

  lemma ActionOf<T>(w: World<T>, base: Action, round: nat, m: Mirror)
    requires w.callback(round, m).Acts?
    ensures ActionAt(w, base, round, m) == Update(base, w.callback(round, m).action)
  {
  }

  /** Grabbing from mirror m in this round ends in a URLGrabError, the only outcome that is caught. */
  predicate FailsAt<T>(w: World<T>, round: nat, m: Mirror)
    requires Bounded(w.options)
  {
    Fetched(w, round, m).Err? && Fetched(w, round, m).error.Grab?
  }

  /** What the request ends with if this round ends it: the grabber's result, or what the callback raises about it. */
  function Answer<T>(w: World<T>, round: nat, m: Mirror): Result<T, Exception>
    requires Bounded(w.options)
  {
    if FailsAt(w, round, m) && w.callback(round, m).Raises? then Err(w.callback(round, m).exception)
    else Fetched(w, round, m)
  }

  function Fetched<T>(w: World<T>, round: nat, m: Mirror): Result<T, Exception>
    requires Bounded(w.options)
  {
    Retried(w.options, w.attempt(round, m))
  }

  function Current(r: Ring): Option<Mirror> { if r.next < |r.mirrors| then Some(r.mirrors[r.next]) else None }

  /** The request's list after so many rounds that all moved on. */
  function RingAt<T>(snapshot: Ring, w: World<T>, base: Action, rounds: nat): Ring {
    if rounds == 0 then snapshot
    else
      var r := RingAt(snapshot, w, base, rounds - 1);
      if r.next < |r.mirrors| then MovedOn(r, ActionAt(w, base, rounds - 1, r.mirrors[r.next])) else r
  }

  /** The master list after so many failure reports of this request alone. */
  function MasterAt<T>(snapshot: Ring, w: World<T>, base: Action, rounds: nat): Ring {
    if rounds == 0 then snapshot
    else
      var m := MasterAt(snapshot, w, base, rounds - 1);
      var r := RingAt(snapshot, w, base, rounds - 1);
      if r.next < |r.mirrors| then Reported(m, r.mirrors[r.next], ActionAt(w, base, rounds - 1, r.mirrors[r.next])) else m
  }

  /** The loop does not go on after a failure in this round: the callback raises, or the action says fail. */
  predicate Stops<T>(w: World<T>, base: Action, round: nat, m: Mirror) {
    w.callback(round, m).Raises? || Fails(ActionAt(w, base, round, m))
  }

  /** The loop ends in this round: no mirror is left, the fetch does not fail, or the failure is final. */
  ghost predicate Ends<T>(snapshot: Ring, w: World<T>, base: Action, round: nat)
    requires Bounded(w.options)
  {
    var m := Current(RingAt(snapshot, w, base, round));
    m.None?
    || !FailsAt(w, round, m.value)
    || Stops(w, base, round, m.value)
  }

  lemma NextRound<T>(snapshot: Ring, w: World<T>, base: Action, round: nat, r: Ring, m: Ring, bad: Mirror)
    requires InRange(r) && Current(r) == Some(bad)
    requires r == RingAt(snapshot, w, base, round) && m == MasterAt(snapshot, w, base, round)
    ensures RingAt(snapshot, w, base, round + 1) == MovedOn(r, ActionAt(w, base, round, bad))
    ensures MasterAt(snapshot, w, base, round + 1) == Reported(m, bad, ActionAt(w, base, round, bad))
    ensures InRange(RingAt(snapshot, w, base, round + 1))
  {
  }

  /** tried is the list of the current mirrors of the rounds so far. */
  ghost predicate Tried<T>(snapshot: Ring, w: World<T>, base: Action, tried: seq<Mirror>) {
    forall k :: 0 <= k < |tried| ==> Current(RingAt(snapshot, w, base, k)) == Some(tried[k])
  }

  /** A run of the loop: no round before the last ends it, and the last one decides the result. */
  ghost predicate Followed<T>(snapshot: Ring, w: World<T>, base: Action, tried: seq<Mirror>, r: Result<T, Exception>)
    requires Bounded(w.options)
  {
    && Tried(snapshot, w, base, tried)
    && (forall k :: 0 <= k < |tried| - 1 ==> !Ends(snapshot, w, base, k))
    && (if tried == [] || !Ends(snapshot, w, base, |tried| - 1)
        then Current(RingAt(snapshot, w, base, |tried|)).None? && r == Err(Grab(256))
        else r == Answer(w, |tried| - 1, tried[|tried| - 1]))
  }

  /** How many tried mirrors are reported: all, or all but a last one that did not fail or whose callback raised. */
  function Failures<T>(w: World<T>, tried: seq<Mirror>): nat
    requires Bounded(w.options)
  {
    if tried == [] then 0
    else
      var k := |tried| - 1;
      if FailsAt(w, k, tried[k]) && w.callback(k, tried[k]).Acts? then |tried| else k
  }

  lemma CountFetches(rounds: nat, tries: nat, max: nat)
    requires tries <= max
    ensures rounds * max + tries <= (rounds + 1) * max
  {
  }
}
