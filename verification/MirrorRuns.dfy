/** mirror.py: the failover loop over a whole request, and what interleaved requests do to the master list. */
module MirrorRuns {
  import opened Wrappers
  import opened Sequences
  import opened Retrying
  import opened Mirrors

  /** The mirrors in the order in which a request visits them. */
  function Rotation(r: Ring): seq<Mirror>
    requires InRange(r)
  {
    r.mirrors[r.next..] + r.mirrors[..r.next]
  }

  ghost predicate AlwaysRemoves<T>(w: World<T>, base: Action) { forall k, m :: Removes(ActionAt(w, base, k, m)) }

  ghost predicate NeverStops<T>(w: World<T>, base: Action) { forall k, m :: !Stops(w, base, k, m) }

  lemma MovedOnRotates(r: Ring, a: Action)
    requires r.next < |r.mirrors| && Removes(a)
    ensures InRange(MovedOn(r, a)) && Rotation(MovedOn(r, a)) == Rotation(r)[1..]
    ensures |MovedOn(r, a).mirrors| == |r.mirrors| - 1
  {
    var q := MovedOn(r, a);
    var deleted := DeleteAt(r.mirrors, r.next);
    if r.next == |r.mirrors| - 1 {
      assert deleted == r.mirrors[..r.next];
    } else {
      assert deleted[r.next..] == r.mirrors[r.next + 1..];
      assert deleted[..r.next] == r.mirrors[..r.next];
    }
  }

  lemma {:induction false} RingAtRotates<T>(snapshot: Ring, w: World<T>, base: Action, k: nat)
    requires InRange(snapshot) && AlwaysRemoves(w, base) && k <= |snapshot.mirrors|
    ensures
      var r := RingAt(snapshot, w, base, k);
      InRange(r) && |r.mirrors| == |snapshot.mirrors| - k && Rotation(r) == Rotation(snapshot)[k..]
  {
    if k > 0 {
      RingAtRotates(snapshot, w, base, k - 1);
      var r := RingAt(snapshot, w, base, k - 1);
      MovedOnRotates(r, ActionAt(w, base, k - 1, r.mirrors[r.next]));
      assert Rotation(snapshot)[k - 1..][1..] == Rotation(snapshot)[k..];
    }
  }

  /** Index i going once around a list of n. */
  function Around(i: nat, n: nat): nat { if i < n then i else i - n }

  lemma AroundIsMod(i: nat, n: nat)
    requires 0 < n && i < 2 * n
    ensures Around(i, n) == i % n
  {
    if i >= n {
      assert i == n * 1 + (i - n);
    }
  }

  lemma CurrentAt<T>(snapshot: Ring, w: World<T>, base: Action, k: nat)
    requires InRange(snapshot) && AlwaysRemoves(w, base) && k <= |snapshot.mirrors|
    ensures Current(RingAt(snapshot, w, base, k))
         == if k < |snapshot.mirrors| then Some(snapshot.mirrors[Around(snapshot.next + k, |snapshot.mirrors|)]) else None
  {
    hide RingAt, AlwaysRemoves;
    RingAtRotates(snapshot, w, base, k);
    var r := RingAt(snapshot, w, base, k);
    var n := |snapshot.mirrors|;
    if k < n {
      assert r.mirrors[r.next] == Rotation(r)[0] == Rotation(snapshot)[k];
    }
  }

  /** With remove on, the loop is over after one round per mirror at the latest. */
  lemma EndsInTime<T>(snapshot: Ring, w: World<T>, base: Action)
    requires InRange(snapshot) && AlwaysRemoves(w, base) && Bounded(w.options)
    ensures Ends(snapshot, w, base, |snapshot.mirrors|)
  {
    CurrentAt(snapshot, w, base, |snapshot.mirrors|);
  }

  lemma FailoverResult<T>(snapshot: Ring, w: World<T>, base: Action, tried: seq<Mirror>, r: Result<T, Exception>)
    requires InRange(snapshot) && AlwaysRemoves(w, base) && Bounded(w.options)
    requires Followed(snapshot, w, base, tried, r)
    ensures |tried| <= |snapshot.mirrors|
    ensures forall k :: 0 <= k < |tried| - 1 ==> Passed(w, base, k, tried[k])
    ensures
      if tried == [] || Passed(w, base, |tried| - 1, tried[|tried| - 1]) then
        |tried| == |snapshot.mirrors| && r == Err(Grab(256))
      else
        r == Answer(w, |tried| - 1, tried[|tried| - 1])
  {
    hide ActionAt, Fetched, RingAt, FailsAt, Stops, Answer;
    var n := |snapshot.mirrors|;
    CurrentAt(snapshot, w, base, n);
    if |tried| > n {
      assert false;
    }
    CurrentAt(snapshot, w, base, |tried|);
    forall k | 0 <= k < |tried|
      ensures Ends(snapshot, w, base, k) <==> !Passed(w, base, k, tried[k])
    {
      assert Current(RingAt(snapshot, w, base, k)) == Some(tried[k]);
    }
  }

  /**
   * Failover: with remove on, the n mirrors of the snapshot are tried in cyclic order from its index, each
   * position at most once. Every one but the last failed, with a failure that was not final. If the last of
   * all n failed like that too, error 256 is raised; otherwise the last one decides the result.
   */
  lemma FailoverOrder<T>(snapshot: Ring, w: World<T>, base: Action, tried: seq<Mirror>, r: Result<T, Exception>)
    requires InRange(snapshot) && AlwaysRemoves(w, base) && Bounded(w.options)
    requires Followed(snapshot, w, base, tried, r)
    ensures |tried| <= |snapshot.mirrors|
    ensures forall k :: 0 <= k < |tried| ==> tried[k] == snapshot.mirrors[(snapshot.next + k) % |snapshot.mirrors|]
    ensures forall k :: 0 <= k < |tried| - 1 ==> Passed(w, base, k, tried[k])
    ensures
      if tried == [] || Passed(w, base, |tried| - 1, tried[|tried| - 1]) then
        |tried| == |snapshot.mirrors| && r == Err(Grab(256))
      else
        r == Answer(w, |tried| - 1, tried[|tried| - 1])
  {
    hide RingAt, Passed, Answer, Ends;
    FailoverResult(snapshot, w, base, tried, r);
    forall k | 0 <= k < |tried| ensures tried[k] == snapshot.mirrors[(snapshot.next + k) % |snapshot.mirrors|] {
      CurrentAt(snapshot, w, base, k);
      assert Current(RingAt(snapshot, w, base, k)) == Some(tried[k]);
      AroundIsMod(snapshot.next + k, |snapshot.mirrors|);
    }
  }

  /** This mirror failed and the request goes on to the next. */
  predicate Passed<T>(w: World<T>, base: Action, round: nat, m: Mirror)
    requires Bounded(w.options)
  {
    FailsAt(w, round, m) && !Stops(w, base, round, m)
  }

  /**
   * With fail off and callbacks that return, the first result that is not a URLGrabError is what the request
   * ends with, and a URLGrabError comes out exactly when all n mirrors failed; it is 256 then.
   */
  lemma FirstSuccessWins<T>(snapshot: Ring, w: World<T>, base: Action, tried: seq<Mirror>, r: Result<T, Exception>)
    requires InRange(snapshot) && AlwaysRemoves(w, base) && NeverStops(w, base) && Bounded(w.options)
    requires Followed(snapshot, w, base, tried, r)
    ensures r.Err? && r.error.Grab? <==>
      |tried| == |snapshot.mirrors| && forall k :: 0 <= k < |tried| ==> FailsAt(w, k, tried[k])
    ensures r.Err? && r.error.Grab? ==> r.error.code == 256
    ensures !(r.Err? && r.error.Grab?) ==>
      && tried != [] && r == Fetched(w, |tried| - 1, tried[|tried| - 1])
      && forall k :: 0 <= k < |tried| - 1 ==> FailsAt(w, k, tried[k])
  {
    hide *;
    FailoverResult(snapshot, w, base, tried, r);
    forall k | 0 <= k < |tried|
      ensures Passed(w, base, k, tried[k]) == FailsAt(w, k, tried[k])
    {
      NotStopped(w, base, k, tried[k]);
    }
    if tried != [] { NotStopped(w, base, |tried| - 1, tried[|tried| - 1]); }
  }

  lemma NotStopped<T>(w: World<T>, base: Action, k: nat, m: Mirror)
    requires NeverStops(w, base) && Bounded(w.options)
    ensures Passed(w, base, k, m) == FailsAt(w, k, m)
    ensures Answer(w, k, m) == Fetched(w, k, m)
    ensures FailsAt(w, k, m) <==> Fetched(w, k, m).Err? && Fetched(w, k, m).error.Grab?
  {
    assert !Stops(w, base, k, m);
  }

  /**
   * A grabber callback that raises decides the mirror's fate: if that ends the retry loop, the group goes on
   * to its failure handling exactly when what was raised is a URLGrabError, such as 15 for a user's abort.
   */
  lemma RaisingCallbackFailsOver<T>(w: World<T>, round: nat, m: Mirror, t: nat, e: Exception)
    requires Bounded(w.options) && StopsAt(w.options, w.attempt(round, m), t)
    requires w.attempt(round, m)(t).callback == Some(e)
    requires w.attempt(round, m)(t).outcome.GrabError? || w.attempt(round, m)(t).outcome.Interrupted?
    ensures Fetched(w, round, m) == Err(e) && (FailsAt(w, round, m) <==> e.Grab?)
  {
    RetriedIs(w.options, w.attempt(round, m), t);
  }

  /** A user who aborts every fetch with a URLGrabError gets through all n mirrors, and then error 256. */
  lemma AbortsTryAll<T>(snapshot: Ring, w: World<T>, base: Action, tried: seq<Mirror>, r: Result<T, Exception>, code: int)
    requires InRange(snapshot) && AlwaysRemoves(w, base) && NeverStops(w, base) && Bounded(w.options)
    requires forall k, m :: w.attempt(k, m)(1) == Attempt(Interrupted, Some(Grab(code)))
    requires Followed(snapshot, w, base, tried, r)
    ensures |tried| == |snapshot.mirrors| && r == Err(Grab(256))
  {
    forall k, m ensures FailsAt(w, k, m) {
      assert StopsAt(w.options, w.attempt(k, m), 1);
      RaisingCallbackFailsOver(w, k, m, 1, Grab(code));
    }
    FirstSuccessWins(snapshot, w, base, tried, r);
    if tried != [] { assert FailsAt(w, |tried| - 1, tried[|tried| - 1]); }
  }

  /**
   * With a group callback that raises whenever it is called, one mirror is tried at most; what is raised about it, or
   * its own result if it does not fail, is the request's, and the master list stays as it was.
   */
  lemma RaisingEnds<T>(snapshot: Ring, w: World<T>, base: Action, tried: seq<Mirror>, r: Result<T, Exception>)
    requires InRange(snapshot) && Bounded(w.options) && Followed(snapshot, w, base, tried, r)
    requires forall k, m :: FailsAt(w, k, m) ==> w.callback(k, m).Raises?
    ensures snapshot.mirrors == [] ==> tried == [] && r == Err(Grab(256))
    ensures snapshot.mirrors != [] ==>
      && tried == [snapshot.mirrors[snapshot.next]]
      && r == if FailsAt(w, 0, tried[0]) then Err(w.callback(0, tried[0]).exception) else Fetched(w, 0, tried[0])
    ensures MasterAt(snapshot, w, base, Failures(w, tried)) == snapshot
  {
    NoRounds(snapshot, w, base);
    hide RingAt, Fetched, ActionAt, MasterAt;
    if tried != [] {
      assert Current(RingAt(snapshot, w, base, 0)) == Some(tried[0]);
      assert Ends(snapshot, w, base, 0);
    }
  }

  /** So a callback that raises the exception it is given passes the first mirror's error on. */
  lemma ReraiseEnds<T>(snapshot: Ring, w: World<T>, base: Action, tried: seq<Mirror>, r: Result<T, Exception>)
    requires InRange(snapshot) && Bounded(w.options) && Followed(snapshot, w, base, tried, r)
    requires forall k, m :: FailsAt(w, k, m) ==> w.callback(k, m) == Raises(Fetched(w, k, m).error)
    ensures snapshot.mirrors != [] ==> tried == [snapshot.mirrors[snapshot.next]] && r == Fetched(w, 0, tried[0])
  {
    hide Followed, RingAt, Fetched;
    RaisingEnds(snapshot, w, base, tried, r);
  }

  /** Of two settings of one key the callback's beats the request's, and that the group's. */
  ghost predicate Chosen(group: Option<bool>, request: Option<bool>, callback: Option<bool>, result: Option<bool>) {
    && (callback.Some? ==> result == callback)
    && (callback.None? && request.Some? ==> result == request)
    && (callback.None? && request.None? ==> result == group)
  }

  lemma Precedence<T>(w: World<T>, group: Action, request: Action, k: nat, m: Mirror)
    requires w.callback(k, m).Acts?
    ensures
      var c, a := w.callback(k, m).action, ActionAt(w, Update(group, request), k, m);
      && Chosen(group.remove, request.remove, c.remove, a.remove)
      && Chosen(group.increment, request.increment, c.increment, a.increment)
      && Chosen(group.removeMaster, request.removeMaster, c.removeMaster, a.removeMaster)
      && Chosen(group.incrementMaster, request.incrementMaster, c.incrementMaster, a.incrementMaster)
      && Chosen(group.fail, request.fail, c.fail, a.fail)
  {
  }

  /** The net result that the class documentation works out for keys set in all three places. */
  lemma DocumentedPrecedence<T>(w: World<T>, k: nat, m: Mirror)
    requires w.callback(k, m) == Acts(Action(None, None, None, None, Some(false)))
    ensures
      var group := Action(None, None, None, None, Some(true));
      var request := Action(Some(false), None, None, None, None);
      var a := ActionAt(w, Update(group, request), k, m);
      && a == Action(Some(false), None, None, None, Some(false))
      && Removes(a) && !Fails(a) && !Stops(w, Update(group, request), k, m)
  {
  }

  /** Nobody sets this key, in the group, the request, or the callback. */
  ghost predicate Unset<T>(w: World<T>, group: Action, request: Action, key: Action -> Option<bool>) {
    key(group).None? && key(request).None?
    && forall k, m :: w.callback(k, m).Acts? ==> key(w.callback(k, m).action).None?
  }

  /** What holds where nobody sets a key: mirrors are removed, failures are not final, the master list moves on. */
  lemma DefaultsApply<T>(w: World<T>, group: Action, request: Action)
    requires forall k, m :: w.callback(k, m).Acts?
    requires Unset(w, group, request, (a: Action) => a.remove)
    ensures AlwaysRemoves(w, Update(group, request))
    ensures Unset(w, group, request, (a: Action) => a.fail) ==> NeverStops(w, Update(group, request))
    ensures
      var masterUnset := Unset(w, group, request, (a: Action) => a.removeMaster)
                         && Unset(w, group, request, (a: Action) => a.incrementMaster);
      masterUnset ==> DefaultForMaster(w, Update(group, request))
  {
  }

  /**
   * An unconfigured group, from end to end: the mirrors are tried in cyclic order from the master index, each
   * position at most once, up to the first that does not fail; if all n fail, 256 is raised. The master list is
   * kept, and with distinct mirrors its index moves on by the number of failures.
   */
  method GrabByDefault<T>(group: MirrorGroup, world: World<T>)
    returns (r: Result<T, Exception>, tried: seq<Mirror>, fetches: nat)
    requires InRange(group.State()) && Bounded(world.options)
    requires group.defaultAction == Action(None, None, None, None, None)
    requires forall k, m :: world.callback(k, m) == Acts(Action(None, None, None, None, None))
    modifies group
    ensures
      var was, now := old(group.State()), group.State();
      var n := |was.mirrors|;
      && |tried| <= n && fetches <= n * MaxTries(world.options)
      && (forall k :: 0 <= k < |tried| ==> tried[k] == was.mirrors[(was.next + k) % n])
      && (forall k :: 0 <= k < |tried| - 1 ==> FailsAt(world, k, tried[k]))
      && now.mirrors == was.mirrors
      && (n == 0 ==> tried == [] && r == Err(Grab(256)))
      && (n > 0 ==>
            && tried != []
            && var last := |tried| - 1;
               var failed := FailsAt(world, last, tried[last]);
            && (if failed then |tried| == n && r == Err(Grab(256)) else r == Fetched(world, last, tried[last]))
            && (Distinct(was.mirrors) ==> now.next == (was.next + if failed then |tried| else last) % n))
  {
    hide *;
    ghost var snapshot := group.State();
    var none := Action(None, None, None, None, None);
    ghost var base := Update(none, none);
    NothingSet(world);
    EndsInTime(snapshot, world, base);
    r, tried, fetches := group.MirrorTry(world, none, |snapshot.mirrors|);
    FailoverOrder(snapshot, world, base, tried, r);
    OnlyFailures(world, base, tried);
    FetchBound(snapshot, world, base, tried, r, fetches);
    DefaultOutcome(snapshot, world, base, tried, r);
  }

  lemma OnlyFailures<T>(w: World<T>, base: Action, tried: seq<Mirror>)
    requires Bounded(w.options)
    ensures (forall k :: 0 <= k < |tried| - 1 ==> Passed(w, base, k, tried[k]))
            ==> forall k :: 0 <= k < |tried| - 1 ==> FailsAt(w, k, tried[k])
  {
  }

  lemma NothingSet<T>(w: World<T>)
    requires forall k, m :: w.callback(k, m) == Acts(Action(None, None, None, None, None))
    ensures
      var base := Update(Action(None, None, None, None, None), Action(None, None, None, None, None));
      AlwaysRemoves(w, base) && NeverStops(w, base) && DefaultForMaster(w, base)
  {
    DefaultsApply(w, Action(None, None, None, None, None), Action(None, None, None, None, None));
  }

  lemma DefaultOutcome<T>(snapshot: Ring, w: World<T>, base: Action, tried: seq<Mirror>, r: Result<T, Exception>)
    requires InRange(snapshot) && Bounded(w.options) && Followed(snapshot, w, base, tried, r)
    requires AlwaysRemoves(w, base) && NeverStops(w, base) && DefaultForMaster(w, base)
    ensures MasterAt(snapshot, w, base, Failures(w, tried)).mirrors == snapshot.mirrors
    ensures snapshot.mirrors == [] ==> tried == [] && r == Err(Grab(256))
    ensures snapshot.mirrors != [] ==>
      && tried != []
      && var last := |tried| - 1;
         var failed := FailsAt(w, last, tried[last]);
      && (if failed then |tried| == |snapshot.mirrors| && r == Err(Grab(256)) else r == Fetched(w, last, tried[last]))
      && (Distinct(snapshot.mirrors) ==>
            MasterAt(snapshot, w, base, Failures(w, tried)).next
              == (snapshot.next + if failed then |tried| else last) % |snapshot.mirrors|)
  {
    hide *;
    FailoverResult(snapshot, w, base, tried, r);
    MasterListKept(snapshot, w, base, Failures(w, tried));
    if snapshot.mirrors != [] {
      var last := |tried| - 1;
      NotStopped(w, base, last, tried[last]);
      AllReported(w, base, tried);
      if Distinct(snapshot.mirrors) {
        NextInRange(snapshot);
        MasterAdvances(snapshot, w, base, Failures(w, tried));
      }
    }
  }

  lemma NextInRange(r: Ring)
    requires InRange(r) && r.mirrors != []
    ensures r.next < |r.mirrors|
  {
  }

  /** With callbacks that return, every failure is reported. */
  lemma AllReported<T>(w: World<T>, base: Action, tried: seq<Mirror>)
    requires Bounded(w.options) && NeverStops(w, base) && tried != []
    ensures Failures(w, tried) == if FailsAt(w, |tried| - 1, tried[|tried| - 1]) then |tried| else |tried| - 1
  {
    assert !Stops(w, base, |tried| - 1, tried[|tried| - 1]);
  }

  lemma {:induction false} MasterListKept<T>(snapshot: Ring, w: World<T>, base: Action, k: nat)
    requires DefaultForMaster(w, base)
    ensures MasterAt(snapshot, w, base, k).mirrors == snapshot.mirrors
  {
    hide RingAt, ActionAt, AlwaysRemoves;
    if k > 0 { MasterListKept(snapshot, w, base, k - 1); }
  }

  /** Where every failure is final, the first mirror's own error comes out, and has been reported to the master list. */
  lemma FailEnds<T>(snapshot: Ring, w: World<T>, base: Action, tried: seq<Mirror>, r: Result<T, Exception>)
    requires InRange(snapshot) && snapshot.mirrors != [] && Bounded(w.options) && Followed(snapshot, w, base, tried, r)
    requires forall k, m :: w.callback(k, m).Acts? && ActionAt(w, base, k, m).fail == Some(true)
    ensures tried == [snapshot.mirrors[snapshot.next]] && r == Fetched(w, 0, tried[0])
    ensures MasterAt(snapshot, w, base, Failures(w, tried))
         == if FailsAt(w, 0, tried[0]) then Reported(snapshot, tried[0], ActionAt(w, base, 0, tried[0])) else snapshot
  {
    NoRounds(snapshot, w, base);
    hide ActionAt, Fetched, Reported, MovedOn, FailsAt;
    assert forall k, m :: Stops(w, base, k, m);
    if tried != [] {
      assert Current(RingAt(snapshot, w, base, 0)) == Some(tried[0]);
      assert Ends(snapshot, w, base, 0);
      assert |tried| == 1;
      NextRound(snapshot, w, base, 0, snapshot, snapshot, tried[0]);
    }
  }

  /** With remove on, n mirrors and retry=N cost at most n*N fetches. */
  lemma FetchBound<T>(snapshot: Ring, w: World<T>, base: Action,
                      tried: seq<Mirror>, r: Result<T, Exception>, fetches: nat)
    requires InRange(snapshot) && AlwaysRemoves(w, base) && Bounded(w.options)
    requires Followed(snapshot, w, base, tried, r) && fetches <= |tried| * MaxTries(w.options)
    ensures fetches <= |snapshot.mirrors| * MaxTries(w.options)
  {
    hide *;
    FailoverResult(snapshot, w, base, tried, r);
    TimesGrows(|tried|, |snapshot.mirrors|, MaxTries(w.options));
  }

  lemma TimesGrows(a: nat, b: nat, n: nat)
    requires a <= b
    ensures a * n <= b * n
  {
  }

  /** Without remove, and nothing but failures, the loop never ends. */
  lemma {:induction false} EndlessWithoutRemove<T>(snapshot: Ring, w: World<T>, base: Action, k: nat)
    requires InRange(snapshot) && snapshot.mirrors != [] && Bounded(w.options)
    requires forall i, m :: !Removes(ActionAt(w, base, i, m))
    requires NeverStops(w, base)
    requires forall i, m :: FailsAt(w, i, m)
    ensures !Ends(snapshot, w, base, k)
    ensures RingAt(snapshot, w, base, k).mirrors == snapshot.mirrors && InRange(RingAt(snapshot, w, base, k))
  {
    hide ActionAt, Fetched, FailsAt, Stops;
    if k > 0 {
      EndlessWithoutRemove(snapshot, w, base, k - 1);
      var r := RingAt(snapshot, w, base, k - 1);
      assert !Removes(ActionAt(w, base, k - 1, r.mirrors[r.next]));
    }
    var q := RingAt(snapshot, w, base, k);
    assert FailsAt(w, k, q.mirrors[q.next]);
    assert !Stops(w, base, k, q.mirrors[q.next]);
  }

  /** Every action removes the mirror from the request and treats the master list like the default action. */
  ghost predicate DefaultForMaster<T>(w: World<T>, base: Action) {
    && AlwaysRemoves(w, base)
    && (forall k, m :: !Get(ActionAt(w, base, k, m).removeMaster, false))
    && (forall k, m :: Get(ActionAt(w, base, k, m).incrementMaster, true))
  }

  lemma IndexOfDistinct(s: seq<Mirror>, i: nat)
    requires Distinct(s) && i < |s|
    ensures IndexOf(s, s[i]) == i
  {
  }

  lemma {:induction false} MasterGoesAround<T>(snapshot: Ring, w: World<T>, base: Action, k: nat)
    requires snapshot.next < |snapshot.mirrors| && Distinct(snapshot.mirrors) && DefaultForMaster(w, base)
    requires k <= |snapshot.mirrors|
    ensures MasterAt(snapshot, w, base, k) == Ring(snapshot.mirrors, Around(snapshot.next + k, |snapshot.mirrors|))
  {
    hide RingAt, MasterAt, Reported, MovedOn, Distinct, ActionAt, AlwaysRemoves;
    NoRounds(snapshot, w, base);
    if k > 0 {
      MasterGoesAround(snapshot, w, base, k - 1);
      CurrentAt(snapshot, w, base, k - 1);
      RingAtRotates(snapshot, w, base, k - 1);
      var i := Around(snapshot.next + k - 1, |snapshot.mirrors|);
      var bad := snapshot.mirrors[i];
      NextRound(snapshot, w, base, k - 1, RingAt(snapshot, w, base, k - 1), MasterAt(snapshot, w, base, k - 1), bad);
      var a := ActionAt(w, base, k - 1, bad);
      assert !Get(a.removeMaster, false) && Get(a.incrementMaster, true);
      ReportedNext(snapshot.mirrors, i, a);
    }
  }

  lemma ReportedNext(mirrors: seq<Mirror>, i: nat, a: Action)
    requires i < |mirrors| && Distinct(mirrors) && !Get(a.removeMaster, false) && Get(a.incrementMaster, true)
    ensures Reported(Ring(mirrors, i), mirrors[i], a) == Ring(mirrors, if i + 1 == |mirrors| then 0 else i + 1)
  {
    IndexOfDistinct(mirrors, i);
  }

  /** Alone, with distinct mirrors, k failures move the master index by k around the unchanged master list. */
  lemma MasterAdvances<T>(snapshot: Ring, w: World<T>, base: Action, k: nat)
    requires snapshot.next < |snapshot.mirrors| && Distinct(snapshot.mirrors) && DefaultForMaster(w, base)
    requires k <= |snapshot.mirrors|
    ensures MasterAt(snapshot, w, base, k) == Ring(snapshot.mirrors, (snapshot.next + k) % |snapshot.mirrors|)
  {
    MasterGoesAround(snapshot, w, base, k);
    AroundIsMod(snapshot.next + k, |snapshot.mirrors|);
  }

  // ---- Many requests at once ----

  type Id = nat

  /** A request between its snapshot and its end; `action` is set between the locked report and the private move. */
  datatype Request = Request(ring: Ring, action: Option<Action>)

  datatype Group = Group(master: Ring, requests: map<Id, Request>)

  datatype Step = Load(id: Id) | Report(id: Id, action: Action) | Move(id: Id) | Finish(id: Id)

  ghost predicate Enabled(g: Group, step: Step) {
    match step
    case Load(id) => id !in g.requests
    case Report(id, _) => id in g.requests && g.requests[id].action.None? && Current(g.requests[id].ring).Some?
    case Move(id) => id in g.requests && g.requests[id].action.Some? && Current(g.requests[id].ring).Some?
    case Finish(id) => id in g.requests
  }

  function Apply(g: Group, step: Step): Group
    requires Enabled(g, step)
  {
    match step
    case Load(id) => g.(requests := g.requests[id := Request(g.master, None)])
    case Report(id, action) =>
      var r := g.requests[id];
      Group(Reported(g.master, r.ring.mirrors[r.ring.next], action), g.requests[id := r.(action := Some(action))])
    case Move(id) =>
      var r := g.requests[id];
      g.(requests := g.requests[id := Request(MovedOn(r.ring, r.action.value), None)])
    case Finish(id) => g.(requests := g.requests - {id})
  }

  ghost predicate Sound(r: Ring, initial: seq<Mirror>) { InRange(r) && Subsequence(r.mirrors, initial) }

  /**
   * Every list, shared or private, is the initial one with deletions, every index is in range, and between
   * a report and the move that follows it the request still has its mirror.
   */
  ghost predicate GroupInv(g: Group, initial: seq<Mirror>) {
    && Sound(g.master, initial)
    && forall id :: id in g.requests ==>
         Sound(g.requests[id].ring, initial) && (g.requests[id].action.Some? ==> Current(g.requests[id].ring).Some?)
  }

  lemma ReportedSound(m: Ring, bad: Mirror, a: Action, initial: seq<Mirror>)
    requires Sound(m, initial)
    ensures Sound(Reported(m, bad, a), initial)
  {
    if bad in m.mirrors { SubsequenceDelete(m.mirrors, initial, IndexOf(m.mirrors, bad)); }
  }

  lemma MovedOnSound(r: Ring, a: Action, initial: seq<Mirror>)
    requires Sound(r, initial) && r.next < |r.mirrors|
    ensures Sound(MovedOn(r, a), initial)
  {
    SubsequenceDelete(r.mirrors, initial, r.next);
  }

  lemma GroupStep(g: Group, step: Step, initial: seq<Mirror>)
    requires GroupInv(g, initial) && Enabled(g, step)
    ensures GroupInv(Apply(g, step), initial)
  {
    hide Sound;
    match step {
      case Load(id) =>
      case Report(id, action) =>
        ReportedSound(g.master, g.requests[id].ring.mirrors[g.requests[id].ring.next], action, initial);
      case Move(id) =>
        MovedOnSound(g.requests[id].ring, g.requests[id].action.value, initial);
      case Finish(id) =>
    }
  }

  ghost predicate GroupRun(states: seq<Group>, steps: seq<Step>, initial: seq<Mirror>) {
    && |states| == |steps| + 1 && states[0] == Group(Ring(initial, 0), map[])
    && forall i :: 0 <= i < |steps| ==> Enabled(states[i], steps[i]) && states[i + 1] == Apply(states[i], steps[i])
  }

  /** What IncrementMirror does in one go is the report followed by the move. */
  lemma IncrementIsTwoSteps(g: Group, id: Id, action: Action)
    requires Enabled(g, Report(id, action))
    ensures
      var r := g.requests[id].ring;
      var h := Apply(g, Report(id, action));
      && Enabled(h, Move(id))
      && Apply(h, Move(id)).master == Reported(g.master, r.mirrors[r.next], action)
      && Apply(h, Move(id)).requests[id].ring == MovedOn(r, action)
      && Apply(h, Move(id)).requests - {id} == g.requests - {id}
  {
  }

  /** However requests interleave and whatever their actions, the shared and the private lists stay sound. */
  lemma {:induction false} GroupRunInv(states: seq<Group>, steps: seq<Step>, initial: seq<Mirror>, n: nat)
    requires GroupRun(states, steps, initial) && n < |states|
    ensures GroupInv(states[n], initial)
  {
    if n == 0 {
      SubsequenceRefl(initial);
    } else {
      GroupRunInv(states, steps, initial, n - 1);
      GroupStep(states[n - 1], steps[n - 1], initial);
    }
  }

  /** Two requests that fail on the same mirror, one report right after the other, move the master list on once. */
  lemma ConcurrentFailuresCountOnce(g: Group, a: Id, b: Id, action: Action)
    requires a != b && InRange(g.master) && !Get(action.removeMaster, false)
    requires Enabled(g, Report(a, action)) && Enabled(g, Report(b, action))
    requires Current(g.requests[a].ring) == Current(g.requests[b].ring)
    ensures Enabled(Apply(g, Report(a, action)), Report(b, action))
    ensures Apply(Apply(g, Report(a, action)), Report(b, action)).master == Apply(g, Report(a, action)).master
  {
    DoubleReport(g.master, g.requests[a].ring.mirrors[g.requests[a].ring.next], action);
  }
}
