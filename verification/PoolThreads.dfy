/**
 * keepalive.py under threads. Every locked operation of the manager, and the one unlocked write of
 * set_ready, is an atomic step; between any two of them any other thread may run.
 */
module PoolThreads {
  import opened Wrappers
  import opened Pool
  import opened KeepAlive

  type Task = nat

  /** Where a request stands, from do_open to the close of its response. */
  datatype Phase =
    | Asking(host: Host)                    // about to call get_ready_conn again
    | Creating(host: Host)                  // found no ready connection
    | Using(conn: Conn, host: Host)         // transaction on a reused connection
    | Discarding(conn: Conn, host: Host)    // it was stale: closed, about to be removed
    | Starting(conn: Conn)                  // first transaction of a new connection
    | Dropping(conn: Conn)                  // answered, and the server will close the connection
    | Open(conn: Conn, closers: nat)        // the caller has the response; so many threads are inside its close
    | Late(conn: Conn, closers: nat)        // one of them has called set_ready, so many others have not yet

  /** The connection a request holds, if any. */
  function Held(p: Phase): Option<Conn> {
    if p.Asking? || p.Creating? || p.Late? then None else Some(p.conn)
  }

  datatype State = State(pool: Maps, tasks: map<Task, Phase>, created: set<Conn>, removed: set<Conn>)

  datatype Step =
    | Take(t: Task, host: Host, found: Option<Conn>)
    | Create(t: Task, made: Conn)
    | Stale(t: Task)
    | Discard(t: Task)
    | Crash(t: Task)
    | Answer(t: Task, willClose: bool)
    | Drop(t: Task)
    | BeginClose(t: Task)
    | EndClose(t: Task)
    | Abandon(t: Task)
    | RemoveAny(c: Conn)

  ghost predicate Enabled(s: State, step: Step) {
    match step
    // get_ready_conn may return any ready connection of the host, or none: an unlocked set_ready can land while it scans.
    case Take(t, host, found) =>
      && (t !in s.tasks || s.tasks[t] == Asking(host))
      && (found.Some? ==> found.value in Listed(s.pool, host) && Ready(s.pool, found.value))
    case Create(t, c) => t in s.tasks && s.tasks[t].Creating? && c !in s.created
    case Stale(t) => t in s.tasks && s.tasks[t].Using?
    case Discard(t) => t in s.tasks && s.tasks[t].Discarding?
    case Crash(t) => t in s.tasks && s.tasks[t].Using?
    case Answer(t, _) => t in s.tasks && (s.tasks[t].Using? || s.tasks[t].Starting?)
    case Drop(t) => t in s.tasks && s.tasks[t].Dropping?
    // a thread gets past the test of self.fp and the call of its close, before any thread has set it to None
    case BeginClose(t) => t in s.tasks && s.tasks[t].Open?
    // and comes to set_ready
    case EndClose(t) => t in s.tasks && (s.tasks[t].Open? || s.tasks[t].Late?) && s.tasks[t].closers > 0
    // a failed first transaction, or a response that closed itself before it knew its handler
    case Abandon(t) => t in s.tasks && (s.tasks[t].Starting? || (s.tasks[t].Open? && s.tasks[t].closers == 0))
    // close_connection and close_all of the handler; close_connection of a response, before it calls close
    case RemoveAny(_) => true
  }

  function RemoveConn(s: State, c: Conn): State {
    s.(pool := Removed(s.pool, c), removed := s.removed + (s.pool.connmap.Keys * {c}))
  }

  function Apply(s: State, step: Step): State
    requires Enabled(s, step)
  {
    match step
    case Take(t, host, None) => s.(tasks := s.tasks[t := Creating(host)])
    case Take(t, host, Some(c)) => s.(pool := WithReady(s.pool, c, false), tasks := s.tasks[t := Using(c, host)])
    case Create(t, c) =>
      s.(pool := Added(s.pool, s.tasks[t].host, c, false), tasks := s.tasks[t := Starting(c)], created := s.created + {c})
    case Stale(t) => s.(tasks := s.tasks[t := Discarding(s.tasks[t].conn, s.tasks[t].host)])
    case Discard(t) => RemoveConn(s, s.tasks[t].conn).(tasks := s.tasks[t := Asking(s.tasks[t].host)])
    case Crash(t) => RemoveConn(s, s.tasks[t].conn).(tasks := s.tasks - {t})
    case Answer(t, willClose) =>
      s.(tasks := s.tasks[t := if willClose then Dropping(s.tasks[t].conn) else Open(s.tasks[t].conn, 0)])
    case Drop(t) => RemoveConn(s, s.tasks[t].conn).(tasks := s.tasks[t := Open(s.tasks[t].conn, 0)])
    case BeginClose(t) => s.(tasks := s.tasks[t := Open(s.tasks[t].conn, s.tasks[t].closers + 1)])
    case EndClose(t) =>
      var c, others: nat := s.tasks[t].conn, s.tasks[t].closers - 1;
      s.(pool := WithReady(s.pool, c, true),
         tasks := if others == 0 then s.tasks - {t} else s.tasks[t := Late(c, others)])
    case Abandon(t) => s.(tasks := s.tasks - {t})
    case RemoveAny(c) => RemoveConn(s, c)
  }

  ghost predicate Holds(s: State, t: Task, c: Conn) { t in s.tasks && Held(s.tasks[t]) == Some(c) }

  /** No connection has two holders, and a ready pooled connection has none. */
  ghost predicate Exclusive(s: State) {
    && (forall t, u, c :: Holds(s, t, c) && Holds(s, u, c) ==> t == u)
    && (forall t, c :: Holds(s, t, c) && c in s.pool.connmap ==> !Ready(s.pool, c))
  }

  /** The connection a request still has to do with. */
  ghost predicate Touches(s: State, t: Task, c: Conn) {
    t in s.tasks && !s.tasks[t].Asking? && !s.tasks[t].Creating? && s.tasks[t].conn == c
  }

  /** Connections are never recycled: a removed one is out of the pool for good. */
  ghost predicate Tracked(s: State) {
    && s.pool.connmap.Keys <= s.created
    && s.removed <= s.created && s.removed !! s.pool.connmap.Keys
    && (forall t, c :: Touches(s, t, c) ==> c in s.created)
  }

  /** The maps agree, and connections are tracked. */
  ghost predicate Consistent(s: State) { Agree(s.pool) && Tracked(s) }

  /** More set_ready calls are to come from this response than the one that gives its connection back. */
  predicate Overdue(p: Phase) { p.Late? || (p.Open? && p.closers > 1) }

  ghost predicate Calm(s: State) { forall t, c :: Touches(s, t, c) && Overdue(s.tasks[t]) ==> c !in s.pool.connmap }

  ghost predicate Inv(s: State) { Consistent(s) && Exclusive(s) && Calm(s) }

  const INIT := State(EMPTY, map[], {}, {})

  lemma InitInv()
    ensures Inv(INIT)
  {
  }

  lemma NoneReadied(p: Maps, c: Conn)
    ensures forall d :: Ready(Removed(p, c), d) ==> Ready(p, d)
  {
  }

  /** Removing a connection keeps everything, whoever holds it. */
  lemma RemoveConnInv(s: State, c: Conn)
    requires Consistent(s)
    ensures Consistent(RemoveConn(s, c)) && c !in RemoveConn(s, c).pool.connmap
    ensures Inv(s) ==> Inv(RemoveConn(s, c))
  {
    RemoveAgrees(s.pool, c);
    NoneReadied(s.pool, c);
    var q := RemoveConn(s, c);
    hide Agree, Removed, Ready, Listed;
    assert forall t, d :: Holds(q, t, d) <==> Holds(s, t, d);
    assert forall t, d :: Touches(q, t, d) <==> Touches(s, t, d);
  }

  /** A task may go on to a phase that holds what it held before, or nothing; or end. */
  lemma PhaseInv(s: State, t: Task, p: Phase)
    requires Consistent(s) && t in s.tasks
    requires p.Asking? || p.Creating? || Touches(s, t, p.conn)
    requires Held(p).None? || Held(p) == Held(s.tasks[t])
    ensures Consistent(s.(tasks := s.tasks[t := p])) && Consistent(s.(tasks := s.tasks - {t}))
    ensures Inv(s) ==> Inv(s.(tasks := s.tasks - {t}))
    ensures Inv(s) && (Overdue(p) ==> p.conn !in s.pool.connmap) ==> Inv(s.(tasks := s.tasks[t := p]))
  {
    hide Agree;
    var q, r := s.(tasks := s.tasks[t := p]), s.(tasks := s.tasks - {t});
    assert forall u, d :: Holds(q, u, d) ==> Holds(s, u, d);
    assert forall u, d :: Holds(r, u, d) ==> Holds(s, u, d);
    assert forall u, d :: Touches(q, u, d) ==> Touches(s, u, d);
    assert forall u, d :: Touches(r, u, d) ==> Touches(s, u, d);
  }

  /** The unlocked set_ready, by the response that holds the connection or on one that has left the pool. */
  lemma ReadyInv(s: State, t: Task, c: Conn)
    requires Consistent(s) && Touches(s, t, c)
    ensures Consistent(s.(pool := WithReady(s.pool, c, true)))
    ensures Inv(s) && (forall u :: !Holds(s, u, c)) ==> Inv(s.(pool := WithReady(s.pool, c, true)))
    ensures Inv(s) && c !in s.pool.connmap ==> Inv(s.(pool := WithReady(s.pool, c, true)))
  {
    ReadyAgrees(s.pool, c, true);
    hide Agree;
    var q := s.(pool := WithReady(s.pool, c, true));
    assert forall u, d :: Holds(q, u, d) <==> Holds(s, u, d);
    assert forall u, d :: Touches(q, u, d) <==> Touches(s, u, d);
  }

  lemma EndCloseInv(s: State, t: Task)
    requires Consistent(s) && Enabled(s, EndClose(t))
    ensures Consistent(Apply(s, EndClose(t))) && (Inv(s) ==> Inv(Apply(s, EndClose(t))))
  {
    var c, others: nat := s.tasks[t].conn, s.tasks[t].closers - 1;
    assert Touches(s, t, c);
    ReadyInv(s, t, c);
    var marked := s.(pool := WithReady(s.pool, c, true));
    PhaseInv(marked, t, Late(c, others));
    if Inv(s) && c in s.pool.connmap {
      assert others == 0;
      hide Agree;
      var q := Apply(s, EndClose(t));
      assert forall u, d :: Holds(q, u, d) ==> Holds(s, u, d) && u != t;
      assert Holds(s, t, c);
      assert forall u, d :: Touches(q, u, d) ==> Touches(s, u, d) && u != t;
    }
  }

  lemma TakeInv(s: State, t: Task, host: Host, c: Conn)
    requires Consistent(s) && Enabled(s, Take(t, host, Some(c)))
    ensures Consistent(Apply(s, Take(t, host, Some(c)))) && c !in s.removed
    ensures Inv(s) ==> Inv(Apply(s, Take(t, host, Some(c)))) && forall u :: !Holds(s, u, c)
  {
    assert c in s.pool.connmap;
    ReadyAgrees(s.pool, c, false);
    hide Agree;
    var q := Apply(s, Take(t, host, Some(c)));
    forall u, d | Holds(q, u, d) ensures (u == t && d == c) || (u != t && Holds(s, u, d)) {
      if u != t { assert Holds(s, u, d); }
    }
    forall u, d | Touches(q, u, d) ensures (u == t && d == c) || (u != t && Touches(s, u, d)) {
      if u != t { assert Touches(s, u, d); }
    }
  }

  lemma AddedOnly(p: Maps, host: Host, c: Conn)
    ensures Added(p, host, c, false).connmap.Keys == p.connmap.Keys + {c}
    ensures forall d :: Ready(Added(p, host, c, false), d) <==> d != c && Ready(p, d)
  {
  }

  lemma CreateInv(s: State, t: Task, c: Conn)
    requires Consistent(s) && Enabled(s, Create(t, c))
    ensures Consistent(Apply(s, Create(t, c))) && (Inv(s) ==> Inv(Apply(s, Create(t, c))))
  {
    AddAgrees(s.pool, s.tasks[t].host, c, false);
    AddedOnly(s.pool, s.tasks[t].host, c);
    hide Agree, Added, Ready;
    var q := Apply(s, Create(t, c));
    forall u, d | Touches(q, u, d) ensures (u == t && d == c) || (u != t && d != c && Touches(s, u, d)) {
      if u != t { assert Touches(s, u, d); }
    }
    forall u, d | Holds(q, u, d) ensures (u == t && d == c) || (u != t && d != c && Holds(s, u, d)) {
      if u != t { assert Holds(s, u, d) && Touches(q, u, d); }
    }
  }

  lemma AskInv(s: State, t: Task, host: Host)
    requires Consistent(s) && (t in s.tasks ==> s.tasks[t] == Asking(host))
    ensures Consistent(s.(tasks := s.tasks[t := Creating(host)]))
    ensures Inv(s) ==> Inv(s.(tasks := s.tasks[t := Creating(host)]))
  {
    hide Agree;
    var q := s.(tasks := s.tasks[t := Creating(host)]);
    assert forall u, d :: Holds(q, u, d) <==> Holds(s, u, d);
    assert forall u, d :: Touches(q, u, d) <==> Touches(s, u, d);
  }

  /** No second thread enters the close of a response whose connection is pooled. */
  ghost predicate Lone(s: State, step: Step)
    requires Enabled(s, step)
  {
    step.BeginClose? ==> s.tasks[step.t].closers == 0 || s.tasks[step.t].conn !in s.pool.connmap
  }

  /** Every step keeps the maps in agreement, and, if it is not a second close, the exclusive use of connections. */
  lemma StepInv(s: State, step: Step)
    requires Consistent(s) && Enabled(s, step)
    ensures Consistent(Apply(s, step)) && s.removed <= Apply(s, step).removed
    ensures Inv(s) && Lone(s, step) ==> Inv(Apply(s, step))
  {
    hide Agree, Exclusive, Tracked, Calm;
    match step {
      case Take(t, host, None) => AskInv(s, t, host);
      case Take(t, host, Some(c)) => TakeInv(s, t, host, c);
      case Create(t, c) => CreateInv(s, t, c);
      case Stale(t) => PhaseInv(s, t, Discarding(s.tasks[t].conn, s.tasks[t].host));
      case Discard(t) =>
        RemoveConnInv(s, s.tasks[t].conn);
        PhaseInv(RemoveConn(s, s.tasks[t].conn), t, Asking(s.tasks[t].host));
      case Crash(t) =>
        RemoveConnInv(s, s.tasks[t].conn);
        PhaseInv(RemoveConn(s, s.tasks[t].conn), t, s.tasks[t]);
      case Answer(t, willClose) =>
        PhaseInv(s, t, if willClose then Dropping(s.tasks[t].conn) else Open(s.tasks[t].conn, 0));
      case Drop(t) =>
        RemoveConnInv(s, s.tasks[t].conn);
        PhaseInv(RemoveConn(s, s.tasks[t].conn), t, Open(s.tasks[t].conn, 0));
      case BeginClose(t) => PhaseInv(s, t, Open(s.tasks[t].conn, s.tasks[t].closers + 1));
      case EndClose(t) => EndCloseInv(s, t);
      case Abandon(t) => PhaseInv(s, t, s.tasks[t]);
      case RemoveAny(c) => RemoveConnInv(s, c);
    }
  }

  // ---- Runs ----

  ghost predicate Run(states: seq<State>, steps: seq<Step>) {
    && |states| == |steps| + 1 && states[0] == INIT
    && forall i :: 0 <= i < |steps| ==>
         Enabled(states[i], steps[i]) && states[i + 1] == Apply(states[i], steps[i])
  }

  lemma {:induction false} RunConsistent(states: seq<State>, steps: seq<Step>, n: nat)
    requires Run(states, steps) && n < |states|
    ensures Consistent(states[n])
  {
    hide Enabled, Apply, Consistent, Inv;
    if n == 0 {
      InitInv();
      assert Consistent(INIT) by { InvConsistent(INIT); }
    } else {
      RunConsistent(states, steps, n - 1);
      StepInv(states[n - 1], steps[n - 1]);
    }
  }

  lemma InvConsistent(s: State)
    requires Inv(s)
    ensures Consistent(s) && Exclusive(s)
  {
  }

  /**
   * In every reachable state the maps agree and every connection is used exclusively, as long as no two threads
   * have been inside the close of one response whose connection was pooled.
   */
  lemma {:induction false} RunInv(states: seq<State>, steps: seq<Step>, n: nat)
    requires Run(states, steps) && n < |states|
    requires forall i :: 0 <= i < n ==> Enabled(states[i], steps[i]) && Lone(states[i], steps[i])
    ensures Inv(states[n])
  {
    hide Enabled, Apply, Inv, Lone, Consistent;
    if n == 0 {
      InitInv();
    } else {
      RunInv(states, steps, n - 1);
      InvConsistent(states[n - 1]);
      StepInv(states[n - 1], steps[n - 1]);
    }
  }

  lemma {:induction false} RemovedStays(states: seq<State>, steps: seq<Step>, i: nat, j: nat)
    requires Run(states, steps) && i <= j < |states|
    ensures states[i].removed <= states[j].removed
    decreases j
  {
    hide Enabled, Apply, Consistent;
    if i < j {
      RemovedStays(states, steps, i, j - 1);
      RunConsistent(states, steps, j - 1);
      StepInv(states[j - 1], steps[j - 1]);
    }
  }

  /** Once some step takes a connection out of the pool, no later request is ever given it, whatever set_ready does. */
  lemma RemovedNeverHandedOut(states: seq<State>, steps: seq<Step>, i: nat, j: nat, c: Conn)
    requires Run(states, steps) && i < j < |steps|
    requires c in states[i].pool.connmap && c !in states[i + 1].pool.connmap
    ensures !(steps[j].Take? && steps[j].found == Some(c))
  {
    hide Apply, Consistent;
    RunConsistent(states, steps, j);
    GoneIsRemoved(states[i], steps[i], c);
    RemovedStays(states, steps, i + 1, j);
    if steps[j].Take? && steps[j].found == Some(c) {
      TakeInv(states[j], steps[j].t, steps[j].host, c);
    }
  }

  lemma GoneIsRemoved(s: State, step: Step, c: Conn)
    requires Enabled(s, step)
    requires c in s.pool.connmap && c !in Apply(s, step).pool.connmap
    ensures c in Apply(s, step).removed
  {
    forall d | c !in Removed(s.pool, d).connmap ensures d == c {
      RemovedOnly(s.pool, d, c);
    }
    hide Removed, Listed, Ready;
  }

  lemma RemovedOnly(p: Maps, d: Conn, c: Conn)
    requires c in p.connmap && c !in Removed(p, d).connmap
    ensures d == c
  {
  }

  /** A connection handed out had no holder, and the manager's own choice is one of the steps above. */
  lemma ManagerChoiceIsStep(s: State, t: Task, host: Host)
    requires Inv(s) && t !in s.tasks && ReadyList(s.pool, host) != []
    ensures
      var c := ReadyList(s.pool, host)[0];
      && Enabled(s, Take(t, host, Some(c)))
      && Apply(s, Take(t, host, Some(c))).pool == WithReady(s.pool, c, false)
      && (forall u :: !Holds(s, u, c))
      && Holds(Apply(s, Take(t, host, Some(c))), t, c)
  {
    var c := ReadyList(s.pool, host)[0];
    ReadyOfMembers(Listed(s.pool, host), s.pool.readymap);
    assert c in ReadyList(s.pool, host);
    TakeInv(s, t, host, c);
  }

  // ---- Steps from any state ----

  /** These steps can be taken from s one after the other. */
  ghost predicate Possible(s: State, steps: seq<Step>)
    decreases |steps|
  {
    steps == [] || (Enabled(s, steps[0]) && Possible(Apply(s, steps[0]), steps[1..]))
  }

  function After(s: State, steps: seq<Step>): State
    requires Possible(s, steps)
    decreases |steps|
  {
    if steps == [] then s else After(Apply(s, steps[0]), steps[1..])
  }

  // ---- What each step does to the pool ----

  /** Removing steps take their connection out and touch nothing else; every other change is to one connection too. */
  lemma StepChanges(s: State, step: Step)
    requires Consistent(s) && Enabled(s, step)
    ensures
      var was, now := s.pool, Apply(s, step).pool;
      match step
      case Take(_, host, Some(c)) => Changed(was, now, host, {}, Some(c), None)
      case Create(t, c) => Changed(was, now, s.tasks[t].host, {}, None, Some(c))
      case Discard(t) => Changed(was, now, s.tasks[t].host, {s.tasks[t].conn}, None, None)
      case Crash(t) => Changed(was, now, s.tasks[t].host, {s.tasks[t].conn}, None, None)
      case Drop(t) => Changed(was, now, "", {s.tasks[t].conn}, None, None)
      case RemoveAny(c) => Changed(was, now, "", {c}, None, None)
      case EndClose(t) =>
        && now.hostmap == was.hostmap && now.connmap == was.connmap
        && forall d :: Ready(now, d) <==> Ready(was, d) || d == s.tasks[t].conn
      case _ => now == was
  {
    hide Agree, Changed, Removed, Added, Tracked;
    match step {
      case Take(_, host, Some(c)) =>
        Unchanged(s.pool, host);
        UseChanges(s.pool, s.pool, host, {}, c);
      case Create(t, c) =>
        Unchanged(s.pool, s.tasks[t].host);
        NotYetPooled(s, c);
        AddChanges(s.pool, s.pool, s.tasks[t].host, {}, c);
      case Discard(t) => RemoveOneChanges(s.pool, s.tasks[t].host, s.tasks[t].conn);
      case Crash(t) => RemoveOneChanges(s.pool, s.tasks[t].host, s.tasks[t].conn);
      case Drop(t) => RemoveOneChanges(s.pool, "", s.tasks[t].conn);
      case RemoveAny(c) => RemoveOneChanges(s.pool, "", c);
      case _ =>
    }
  }

  lemma NotYetPooled(s: State, c: Conn)
    requires Tracked(s) && c !in s.created
    ensures c !in s.pool.connmap
  {
  }

  lemma RemoveOneChanges(p: Maps, host: Host, c: Conn)
    requires Agree(p)
    ensures Changed(p, Removed(p, c), host, {c}, None, None)
  {
    hide Agree, Changed, Removed;
    Unchanged(p, host);
    RemoveChanges(p, p, host, {}, None, c);
    assert {} + {c} == {c};
  }

  // ---- An undisturbed do_open is a run of these steps ----

  lemma {:induction false} ReadyLeft(p: Maps, host: Host, k: nat)
    requires Agree(p) && k <= |ReadyList(p, host)|
    ensures
      var ready := ReadyList(p, host);
      ReadyList(RemovedAll(p, ready[..k]), host) == ready[k..]
  {
    hide Agree, ReadyOf, RemovedAll, Removed, ReadyList;
    var ready := ReadyList(p, host);
    if k == 0 {
      RemovedNone(p, ready);
    } else {
      ReadyLeft(p, host, k - 1);
      var mid := RemovedAll(p, ready[..k - 1]);
      RemovedAllSnoc(p, ready, k - 1);
      DiscardFirstReady(mid, host);
    }
  }

  lemma {:induction false} RunOn(s: State, a: seq<Step>, b: seq<Step>)
    requires Possible(s, a) && Possible(After(s, a), b)
    ensures Possible(s, a + b) && After(s, a + b) == After(After(s, a), b)
    decreases |a|
  {
    hide Enabled, Apply;
    if a == [] {
      assert a + b == b;
    } else {
      assert (a + b)[1..] == a[1..] + b;
      RunOn(Apply(s, a[0]), a[1..], b);
    }
  }

  lemma OneStep(s: State, step: Step)
    requires Enabled(s, step)
    ensures Possible(s, [step]) && After(s, [step]) == Apply(s, step)
  {
    hide Enabled, Apply;
    assert [step][1..] == [];
    assert Possible(Apply(s, step), []);
  }

  lemma TakeStep(s: State, t: Task, host: Host, c: Conn)
    requires t in s.tasks ==> s.tasks[t] == Asking(host)
    requires ReadyList(s.pool, host) != [] && c == ReadyList(s.pool, host)[0]
    ensures
      var step := Take(t, host, Some(c));
      && Possible(s, [step]) && Enabled(s, step)
      && After(s, [step]) == s.(pool := WithReady(s.pool, c, false), tasks := s.tasks[t := Using(c, host)])
  {
    FirstIsReady(s.pool, host);
    hide ReadyOf, Listed, Ready;
    OneStep(s, Take(t, host, Some(c)));
  }

  lemma StaleSteps(s: State, t: Task)
    requires t in s.tasks && s.tasks[t].Using?
    ensures Possible(s, [Stale(t), Discard(t)])
    ensures
      var after := After(s, [Stale(t), Discard(t)]);
      && after.pool == Removed(s.pool, s.tasks[t].conn) && after.created == s.created
      && after.tasks == s.tasks[t := Asking(s.tasks[t].host)]
  {
    hide Removed;
    var discarding := Apply(s, Stale(t));
    OneStep(s, Stale(t));
    OneStep(discarding, Discard(t));
    RunOn(s, [Stale(t)], [Discard(t)]);
    assert [Stale(t)] + [Discard(t)] == [Stale(t), Discard(t)];
  }

  /** One stale connection: taken, found stale, closed and removed. */
  lemma DiscardOne(s: State, t: Task, host: Host, c: Conn) returns (steps: seq<Step>)
    requires Consistent(s) && (t in s.tasks ==> s.tasks[t] == Asking(host))
    requires ReadyList(s.pool, host) != [] && c == ReadyList(s.pool, host)[0]
    ensures steps == [Take(t, host, Some(c)), Stale(t), Discard(t)] && Possible(s, steps)
    ensures After(s, steps).pool == Removed(s.pool, c)
    ensures After(s, steps).tasks == s.tasks[t := Asking(host)] && After(s, steps).created == s.created
  {
    hide Agree, Tracked, ReadyOf, ReadyList, Removed, Listed, Ready, Possible, After, Enabled, Apply;
    DiscardFirstReady(s.pool, host);
    TakeStep(s, t, host, c);
    StaleSteps(After(s, [Take(t, host, Some(c))]), t);
    RunOn(s, [Take(t, host, Some(c))], [Stale(t), Discard(t)]);
    steps := [Take(t, host, Some(c))] + [Stale(t), Discard(t)];
    assert s.tasks[t := Using(c, host)][t := Asking(host)] == s.tasks[t := Asking(host)];
  }

  lemma FirstIsReady(p: Maps, host: Host)
    requires ReadyList(p, host) != []
    ensures var c := ReadyList(p, host)[0]; c in Listed(p, host) && Ready(p, c)
  {
    ReadyOfMembers(Listed(p, host), p.readymap);
    assert ReadyList(p, host)[0] in ReadyList(p, host);
  }

  /** The retry loop over the first k ready connections. */
  lemma {:induction false} DiscardRun(s: State, t: Task, host: Host, k: nat) returns (steps: seq<Step>)
    requires Consistent(s) && t !in s.tasks && k <= |ReadyList(s.pool, host)|
    ensures Possible(s, steps) && |steps| == 3 * k
    ensures Consistent(After(s, steps)) && After(s, steps).created == s.created
    ensures After(s, steps).pool == RemovedAll(s.pool, ReadyList(s.pool, host)[..k])
    ensures After(s, steps).tasks == if k == 0 then s.tasks else s.tasks[t := Asking(host)]
  {
    hide Agree, Tracked, ReadyList, RemovedAll, Removed, Enabled, Apply, Possible, After;
    var ready := ReadyList(s.pool, host);
    if k == 0 {
      steps := [];
      NoSteps(s);
      RemovedNone(s.pool, ready);
    } else {
      var before := DiscardRun(s, t, host, k - 1);
      var mid := After(s, before);
      ReadyLeft(s.pool, host, k - 1);
      RemovedAllSnoc(s.pool, ready, k - 1);
      var three := DiscardOne(mid, t, host, ready[k - 1]);
      RunOn(s, before, three);
      steps := before + three;
      StaysConsistent(mid, three);
    }
  }

  lemma NoSteps(s: State)
    ensures Possible(s, []) && After(s, []) == s
  {
  }

  lemma {:induction false} StaysConsistent(s: State, steps: seq<Step>)
    requires Consistent(s) && Possible(s, steps)
    ensures Consistent(After(s, steps))
    decreases |steps|
  {
    hide Enabled, Apply, Consistent;
    if steps != [] {
      StepInv(s, steps[0]);
      StaysConsistent(Apply(s, steps[0]), steps[1..]);
    }
  }

  /** The steps of an answered or failed transaction on a connection the task holds. */
  function Ending(t: Task, made: bool, outcome: Transaction): seq<Step> {
    match outcome
    case Works(willClose) => if willClose then [Answer(t, true), Drop(t)] else [Answer(t, false)]
    case _ => if made then [Abandon(t)] else [Crash(t)]
  }

  lemma EndingRuns(s: State, t: Task, made: bool, outcome: Transaction)
    requires t in s.tasks && (if made then s.tasks[t].Starting? else s.tasks[t].Using?)
    ensures Possible(s, Ending(t, made, outcome))
    ensures
      var c, now := s.tasks[t].conn, After(s, Ending(t, made, outcome));
      && now.pool == (if outcome == Works(false) || (made && !outcome.Works?) then s.pool else Removed(s.pool, c))
      && now.tasks == if outcome.Works? then s.tasks[t := Open(c, 0)] else s.tasks - {t}
  {
    hide Removed;
    match outcome {
      case Works(willClose) =>
        OneStep(s, Answer(t, willClose));
        if willClose {
          var answered := Apply(s, Answer(t, true));
          OneStep(answered, Drop(t));
          RunOn(s, [Answer(t, true)], [Drop(t)]);
          assert [Answer(t, true)] + [Drop(t)] == [Answer(t, true), Drop(t)];
        }
      case _ => OneStep(s, if made then Abandon(t) else Crash(t));
    }
  }

  /**
   * With nothing between its steps, do_open is a run of this machine: it ends in the pool that the handler's
   * contract gives, with the response open in the hands of the task, or with the task over if it failed.
   */
  lemma DoOpenIsRun(s: State, t: Task, host: Host, reuse: Conn -> Transaction, newConn: Conn, start: Transaction)
    returns (steps: seq<Step>)
    requires Consistent(s) && t !in s.tasks && newConn !in s.created
    ensures Possible(s, steps)
    ensures After(s, steps).pool == OpenState(s.pool, host, reuse, newConn, start)
    ensures
      var r := OpenResult(s.pool, host, reuse, newConn, start);
      After(s, steps).tasks == if r.Ok? then s.tasks[t := Open(r.value, 0)] else s.tasks
  {
    hide Agree, Tracked, ReadyOf, ReadyList, RemovedAll, Removed, Added, Possible, After, AfterResponse, WithReady;
    var ready := ReadyList(s.pool, host);
    var k := BadPrefix(ready, reuse);
    var before := DiscardRun(s, t, host, k);
    var mid := After(s, before);
    ReadyLeft(s.pool, host, k);
    if k < |ready| {
      var rest := ReusedRun(mid, t, host, ready[k], reuse(ready[k]));
      RunOn(s, before, rest);
      steps := before + rest;
    } else {
      var rest := CreatedRun(mid, t, host, newConn, start);
      RunOn(s, before, rest);
      steps := before + rest;
    }
    var r := OpenResult(s.pool, host, reuse, newConn, start);
    assert mid.tasks - {t} == s.tasks;
    assert r.Ok? ==> mid.tasks[t := Open(r.value, 0)] == s.tasks[t := Open(r.value, 0)];
  }

  lemma ReusedRun(s: State, t: Task, host: Host, c: Conn, outcome: Transaction) returns (steps: seq<Step>)
    requires (t in s.tasks ==> s.tasks[t] == Asking(host)) && !outcome.Bad?
    requires ReadyList(s.pool, host) != [] && c == ReadyList(s.pool, host)[0]
    ensures Possible(s, steps)
    ensures After(s, steps).pool == AfterResponse(WithReady(s.pool, c, false), c, outcome)
    ensures After(s, steps).tasks == if outcome.Works? then s.tasks[t := Open(c, 0)] else s.tasks - {t}
  {
    hide ReadyList, Removed, Possible, After, Enabled, Apply;
    TakeStep(s, t, host, c);
    var used := After(s, [Take(t, host, Some(c))]);
    EndingRuns(used, t, false, outcome);
    RunOn(s, [Take(t, host, Some(c))], Ending(t, false, outcome));
    steps := [Take(t, host, Some(c))] + Ending(t, false, outcome);
    assert used.tasks[t := Open(c, 0)] == s.tasks[t := Open(c, 0)] && used.tasks - {t} == s.tasks - {t};
  }

  lemma CreateSteps(s: State, t: Task, host: Host, c: Conn)
    requires (t in s.tasks ==> s.tasks[t] == Asking(host)) && c !in s.created
    ensures Possible(s, [Take(t, host, None), Create(t, c)])
    ensures
      var after := After(s, [Take(t, host, None), Create(t, c)]);
      after.pool == Added(s.pool, host, c, false) && after.tasks == s.tasks[t := Starting(c)]
  {
    hide Added, Listed, Ready;
    var asked := Apply(s, Take(t, host, None));
    OneStep(s, Take(t, host, None));
    OneStep(asked, Create(t, c));
    RunOn(s, [Take(t, host, None)], [Create(t, c)]);
    assert [Take(t, host, None)] + [Create(t, c)] == [Take(t, host, None), Create(t, c)];
  }

  lemma CreatedRun(s: State, t: Task, host: Host, c: Conn, start: Transaction) returns (steps: seq<Step>)
    requires (t in s.tasks ==> s.tasks[t] == Asking(host)) && c !in s.created
    ensures Possible(s, steps)
    ensures
      var grown := Added(s.pool, host, c, false);
      After(s, steps).pool == if start.Works? then AfterResponse(grown, c, start) else grown
    ensures After(s, steps).tasks == if start.Works? then s.tasks[t := Open(c, 0)] else s.tasks - {t}
  {
    hide Added, Removed, Possible, After, Enabled, Apply;
    CreateSteps(s, t, host, c);
    var two := [Take(t, host, None), Create(t, c)];
    var made := After(s, two);
    EndingRuns(made, t, true, start);
    RunOn(s, two, Ending(t, true, start));
    steps := two + Ending(t, true, start);
    assert made.tasks[t := Open(c, 0)] == s.tasks[t := Open(c, 0)] && made.tasks - {t} == s.tasks - {t};
  }

  // ---- Two threads closing one response ----

  /** Nobody starts to close anything. */
  ghost predicate NoNewClose(steps: seq<Step>) { forall i :: 0 <= i < |steps| ==> !steps[i].BeginClose? }

  lemma {:induction false} StaysExclusive(s: State, steps: seq<Step>)
    requires Inv(s) && Possible(s, steps) && NoNewClose(steps)
    ensures Inv(After(s, steps))
    decreases |steps|
  {
    hide Inv, Enabled, Apply, Consistent;
    if steps != [] {
      InvConsistent(s);
      StepInv(s, steps[0]);
      StaysExclusive(Apply(s, steps[0]), steps[1..]);
    }
  }

  /**
   * Where every close so far has come to its end, exclusive use survives whatever happens next, short of new
   * closes, if and only if no response with a pooled connection has two threads inside its close.
   */
  lemma TwoClosersExact(s: State)
    requires Consistent(s) && Exclusive(s)
    requires forall t :: t in s.tasks && s.tasks[t].Late? ==> s.tasks[t].conn !in s.pool.connmap
    ensures
      (forall steps :: Possible(s, steps) && NoNewClose(steps) ==> Exclusive(After(s, steps)))
      <==>
      (forall t :: t in s.tasks && s.tasks[t].Open? && s.tasks[t].closers > 1 ==> s.tasks[t].conn !in s.pool.connmap)
  {
    if t :| t in s.tasks && s.tasks[t].Open? && s.tasks[t].closers > 1 && s.tasks[t].conn in s.pool.connmap {
      var steps := DoubleCloseBreaks(s, t);
    } else {
      assert Calm(s);
      forall steps | Possible(s, steps) && NoNewClose(steps) ensures Exclusive(After(s, steps)) {
        StaysExclusive(s, steps);
      }
    }
  }

  lemma FreshTask(s: State) returns (v: Task)
    ensures v !in s.tasks
  {
    v := FreshNumber(s.tasks.Keys);
  }

  lemma FreshNumber(used: set<nat>) returns (v: nat)
    ensures forall n :: n in used ==> n < v
  {
    if used == {} {
      v := 0;
    } else {
      var n :| n in used;
      var w := FreshNumber(used - {n});
      v := if n < w then w else n + 1;
      forall m | m in used ensures m < v { assert m == n || m in used - {n}; }
    }
  }

  /** The first thread gives the connection back, someone takes it, and the second thread marks it ready again. */
  lemma DoubleCloseBreaks(s: State, t: Task) returns (steps: seq<Step>)
    requires Consistent(s) && t in s.tasks && s.tasks[t].Open? && s.tasks[t].closers > 1
    requires s.tasks[t].conn in s.pool.connmap
    ensures Possible(s, steps) && NoNewClose(steps) && !Exclusive(After(s, steps))
  {
    var c := s.tasks[t].conn;
    var host := s.pool.connmap[c];
    var v := FreshTask(s);
    var s1 := Apply(s, EndClose(t));
    assert s1.tasks[t] == Late(c, s.tasks[t].closers - 1);
    assert Enabled(s1, Take(v, host, Some(c)));
    var s2 := Apply(s1, Take(v, host, Some(c)));
    assert s2.tasks[t] == s1.tasks[t];
    var s3 := Apply(s2, EndClose(t));
    assert Holds(s3, v, c) && Ready(s3.pool, c) && c in s3.pool.connmap;
    steps := [EndClose(t), Take(v, host, Some(c)), EndClose(t)];
    ThreeSteps(s, steps[0], steps[1], steps[2]);
  }

  lemma ThreeSteps(s: State, a: Step, b: Step, c: Step)
    requires Enabled(s, a) && Enabled(Apply(s, a), b) && Enabled(Apply(Apply(s, a), b), c)
    ensures Possible(s, [a, b, c]) && After(s, [a, b, c]) == Apply(Apply(Apply(s, a), b), c)
  {
    hide Enabled, Apply;
    assert [a, b, c][1..] == [b, c] && [b, c][1..] == [c] && [c][1..] == [];
    var s1, s2, s3 := Apply(s, a), Apply(Apply(s, a), b), Apply(Apply(Apply(s, a), b), c);
    assert Possible(s3, []) && After(s3, []) == s3;
    assert Possible(s2, [c]) && After(s2, [c]) == After(s3, []);
    assert Possible(s1, [b, c]) && After(s1, [b, c]) == After(s2, [c]);
    assert Possible(s, [a, b, c]) && After(s, [a, b, c]) == After(s1, [b, c]);
  }

  /** One pooled connection. */
  function OneConn(ready: bool, tasks: map<Task, Phase>): State {
    State(Maps(map["h" := [7]], map[7 := "h"], map[7 := ready]), tasks, {7}, {})
  }

  lemma NewConnection()
    ensures Enabled(INIT, Take(0, "h", None))
    ensures var asked := Apply(INIT, Take(0, "h", None));
      Enabled(asked, Create(0, 7)) && Apply(asked, Create(0, 7)) == OneConn(false, map[0 := Starting(7)])
  {
    var made := Apply(Apply(INIT, Take(0, "h", None)), Create(0, 7));
    assert Listed(EMPTY, "h") + [7] == [7];
    assert made.tasks == map[0 := Starting(7)] && made.created == {7};
    assert made.pool == OneConn(false, map[]).pool;
  }

  lemma Answered()
    ensures
      var s2, s3 := OneConn(false, map[0 := Starting(7)]), OneConn(false, map[0 := Open(7, 0)]);
      var s4 := OneConn(false, map[0 := Open(7, 1)]);
      && Enabled(s2, Answer(0, false)) && Apply(s2, Answer(0, false)) == s3
      && Enabled(s3, BeginClose(0)) && Apply(s3, BeginClose(0)) == s4
  {
  }

  lemma ClosedTwice()
    ensures
      var s4, s5 := OneConn(false, map[0 := Open(7, 1)]), OneConn(false, map[0 := Open(7, 2)]);
      var s6 := OneConn(true, map[0 := Late(7, 1)]);
      && Enabled(s4, BeginClose(0)) && Apply(s4, BeginClose(0)) == s5
      && Enabled(s5, EndClose(0)) && Apply(s5, EndClose(0)) == s6
  {
  }

  lemma TakenTwice()
    ensures
      var s6, s7 := OneConn(true, map[0 := Late(7, 1)]), OneConn(false, map[0 := Late(7, 1), 1 := Using(7, "h")]);
      var s8 := OneConn(true, map[1 := Using(7, "h")]);
      && Enabled(s6, Take(1, "h", Some(7))) && Apply(s6, Take(1, "h", Some(7))) == s7
      && Enabled(s7, EndClose(0)) && Apply(s7, EndClose(0)) == s8
      && Enabled(s8, Take(2, "h", Some(7)))
      && Apply(s8, Take(2, "h", Some(7))) == OneConn(false, map[1 := Using(7, "h"), 2 := Using(7, "h")])
  {
    assert Listed(OneConn(true, map[]).pool, "h") == [7];
  }

  /** Such a run exists from the start: request 0 is closed by two threads, and requests 1 and 2 get its connection. */
  lemma TwoHolders() returns (states: seq<State>, steps: seq<Step>)
    ensures Run(states, steps) && Holds(states[|steps|], 1, 7) && Holds(states[|steps|], 2, 7)
  {
    NewConnection();
    Answered();
    ClosedTwice();
    TakenTwice();
    hide Enabled, Apply;
    steps := [Take(0, "h", None), Create(0, 7), Answer(0, false), BeginClose(0), BeginClose(0), EndClose(0),
              Take(1, "h", Some(7)), EndClose(0), Take(2, "h", Some(7))];
    states := [INIT, Apply(INIT, Take(0, "h", None)), OneConn(false, map[0 := Starting(7)]),
               OneConn(false, map[0 := Open(7, 0)]), OneConn(false, map[0 := Open(7, 1)]),
               OneConn(false, map[0 := Open(7, 2)]), OneConn(true, map[0 := Late(7, 1)]),
               OneConn(false, map[0 := Late(7, 1), 1 := Using(7, "h")]), OneConn(true, map[1 := Using(7, "h")]),
               OneConn(false, map[1 := Using(7, "h"), 2 := Using(7, "h")])];
  }
}
