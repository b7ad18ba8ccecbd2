/** keepalive.py: KeepAliveHandler, one request at a time. The interleaved runs are in PoolThreads. */
module KeepAlive {
  import opened Wrappers
  import opened Sequences
  import opened Pool

  /** How a transaction on a connection goes: a response, a socket or HTTP error, or an exception nobody expects. */
  datatype Transaction = Works(willClose: bool) | Bad | Unexpected

  datatype OpenError = NoHost | UrlError | Other

  datatype CloseError = NoSuchMethod

  function RemovedAll(p: Maps, cs: seq<Conn>): (q: Maps)
    requires Agree(p)
    ensures Agree(q)
  {
    if cs == [] then p
    else
      var q := RemovedAll(p, cs[..|cs| - 1]);
      RemoveAgrees(q, cs[|cs| - 1]);
      Removed(q, cs[|cs| - 1])
  }

  lemma RemovedNone(p: Maps, cs: seq<Conn>)
    requires Agree(p)
    ensures RemovedAll(p, cs[..0]) == p
  {
  }

  lemma RemovedAllSnoc(p: Maps, cs: seq<Conn>, k: nat)
    requires Agree(p) && k < |cs|
    ensures Agree(RemovedAll(p, cs[..k])) && RemovedAll(p, cs[..k + 1]) == Removed(RemovedAll(p, cs[..k]), cs[k])
  {
    hide Agree;
    assert cs[..k + 1][..k] == cs[..k];
  }

  lemma {:induction false} RemovedAllMembers(p: Maps, cs: seq<Conn>)
    requires Agree(p)
    ensures forall d :: d in RemovedAll(p, cs).connmap <==> d in p.connmap && d !in cs
    ensures forall h :: (forall c :: c in cs ==> c !in Listed(p, h)) ==> Listed(RemovedAll(p, cs), h) == Listed(p, h)
  {
    if cs != [] {
      var init, c := cs[..|cs| - 1], cs[|cs| - 1];
      assert cs == init + [c];
      RemovedAllMembers(p, init);
      RemoveAgrees(RemovedAll(p, init), c);
    }
  }

  /** Removing all connections of a host removes the host, and leaves the other hosts alone. */
  lemma RemovedHost(was: Maps, now: Maps, host: Host)
    requires Agree(was) && Agree(now) && now == RemovedAll(was, Listed(was, host))
    ensures host !in now.hostmap
    ensures forall h :: h != host ==> Listed(now, h) == Listed(was, h)
  {
    hide RemovedAll, Agree;
    var closed := Listed(was, host);
    RemovedAllMembers(was, closed);
    RemovedAllHosts(was, closed);
    ListedExactly(was, host);
    forall h | h != host ensures Listed(now, h) == Listed(was, h) {
      ListedExactly(was, h);
    }
    ListedExactly(now, host);
  }

  lemma ListedExactly(p: Maps, h: Host)
    requires Agree(p)
    ensures forall c :: c in Listed(p, h) <==> c in p.connmap && p.connmap[c] == h
    ensures h in p.hostmap ==> Listed(p, h)[0] in p.connmap && p.connmap[Listed(p, h)[0]] == h
  {
  }

  lemma {:induction false} RemovedAllHosts(p: Maps, cs: seq<Conn>)
    requires Agree(p)
    ensures forall c :: c in RemovedAll(p, cs).connmap ==> c in p.connmap && RemovedAll(p, cs).connmap[c] == p.connmap[c]
  {
    if cs != [] { RemovedAllHosts(p, cs[..|cs| - 1]); }
  }

  /** How many of the ready connections turn out stale before one does not. */
  function BadPrefix(ready: seq<Conn>, reuse: Conn -> Transaction): (k: nat)
    ensures k <= |ready|
    ensures forall i :: 0 <= i < k ==> reuse(ready[i]).Bad?
    ensures k < |ready| ==> !reuse(ready[k]).Bad?
  {
    if ready == [] || !reuse(ready[0]).Bad? then 0 else 1 + BadPrefix(ready[1..], reuse)
  }

  lemma BadPrefixUnique(ready: seq<Conn>, reuse: Conn -> Transaction, k: nat)
    requires k <= |ready| && (forall i :: 0 <= i < k ==> reuse(ready[i]).Bad?)
    requires k < |ready| ==> !reuse(ready[k]).Bad?
    ensures k == BadPrefix(ready, reuse)
  {
    var m := BadPrefix(ready, reuse);
    assert !(m < k) && !(k < m);
  }

  lemma DistinctListed(p: Maps, host: Host)
    requires Agree(p)
    ensures Distinct(Listed(p, host))
    ensures forall c :: c in Listed(p, host) ==> c in p.connmap && p.connmap[c] in p.hostmap
  {
  }

  /** Discarding the first ready connection of a host leaves the others ready, in order. */
  lemma DiscardFirstReady(p: Maps, host: Host)
    requires Agree(p) && ReadyList(p, host) != []
    ensures
      var c := ReadyList(p, host)[0];
      && c in Listed(p, host)
      && Agree(WithReady(p, c, false)) && Removed(WithReady(p, c, false), c) == Removed(p, c)
      && Agree(Removed(p, c)) && ReadyList(Removed(p, c), host) == ReadyList(p, host)[1..]
  {
    var c := ReadyList(p, host)[0];
    DistinctListed(p, host);
    hide Agree, ReadyOf, RemoveFirst, Distinct;
    ReadyOfDropFirst(Listed(p, host), p.readymap);
    RemoveAgrees(p, c);
    ReadyAgrees(p, c, false);
    assert p.readymap[c := false] - {c} == p.readymap - {c};
    assert Removed(p, c).readymap == p.readymap - {c};
  }

  /** The state a response leaves the pool in: a connection the server will close is dropped at once. */
  function AfterResponse(p: Maps, c: Conn, t: Transaction): Maps {
    if t.Works? && !t.willClose then p else Removed(p, c)
  }

  /** The pool after do_open: stale ready connections go, the first other one is used, or else a new one is made. */
  function OpenState(was: Maps, host: Host, reuse: Conn -> Transaction, newConn: Conn, start: Transaction): Maps
    requires Agree(was)
  {
    var ready := ReadyList(was, host);
    var k := BadPrefix(ready, reuse);
    var mid := RemovedAll(was, ready[..k]);
    if k < |ready| then AfterResponse(WithReady(mid, ready[k], false), ready[k], reuse(ready[k]))
    else if start.Works? then AfterResponse(Added(mid, host, newConn, false), newConn, start)
    else Added(mid, host, newConn, false)
  }

  function OpenResult(was: Maps, host: Host, reuse: Conn -> Transaction, newConn: Conn, start: Transaction)
    : Result<Conn, OpenError>
  {
    var ready := ReadyList(was, host);
    var k := BadPrefix(ready, reuse);
    if k < |ready| then (if reuse(ready[k]).Works? then Ok(ready[k]) else Err(Other))
    else if start.Works? then Ok(newConn)
    else Err(if start.Bad? then UrlError else Other)
  }

  /** Both, once the first connection that is not stale is known to be number k. */
  lemma OpenAt(was: Maps, host: Host, reuse: Conn -> Transaction, newConn: Conn, start: Transaction, k: nat)
    requires Agree(was) && k <= |ReadyList(was, host)|
    requires forall i :: 0 <= i < k ==> reuse(ReadyList(was, host)[i]).Bad?
    requires k < |ReadyList(was, host)| ==> !reuse(ReadyList(was, host)[k]).Bad?
    ensures
      var ready := ReadyList(was, host);
      var mid := RemovedAll(was, ready[..k]);
      && OpenState(was, host, reuse, newConn, start)
         == (if k < |ready| then AfterResponse(WithReady(mid, ready[k], false), ready[k], reuse(ready[k]))
             else if start.Works? then AfterResponse(Added(mid, host, newConn, false), newConn, start)
             else Added(mid, host, newConn, false))
      && OpenResult(was, host, reuse, newConn, start)
         == (if k < |ready| then (if reuse(ready[k]).Works? then Ok(ready[k]) else Err(Other))
             else if start.Works? then Ok(newConn) else Err(if start.Bad? then UrlError else Other))
  {
    hide Agree, ReadyList, RemovedAll, Removed, Added, WithReady, AfterResponse;
    BadPrefixUnique(ReadyList(was, host), reuse, k);
  }

  // ---- What happens to each connection ----

  /** The list without some connections, the others in order. */
  function Without(list: seq<Conn>, gone: set<Conn>): seq<Conn> {
    if list == [] then []
    else (if list[0] in gone then [] else [list[0]]) + Without(list[1..], gone)
  }

  /**
   * From one pool to the next, connections `gone` have left it, `used` has been marked not ready, `added` has
   * joined the host's list, not ready, and every other connection has kept its host, its flag and its place.
   */
  ghost predicate Changed(was: Maps, now: Maps, host: Host, gone: set<Conn>, used: Option<Conn>, added: Option<Conn>) {
    && Members(was, now, host, gone, used, added)
    && (forall h :: Listed(now, h) == Without(Listed(was, h), gone)
                                      + if h == host && added.Some? then [added.value] else [])
  }

  ghost predicate Members(was: Maps, now: Maps, host: Host, gone: set<Conn>, used: Option<Conn>, added: Option<Conn>) {
    && (forall c :: c in now.connmap <==> (c in was.connmap && c !in gone) || added == Some(c))
    && (forall c :: c in now.connmap && added != Some(c) ==> now.connmap[c] == was.connmap[c])
    && (forall c :: c in now.connmap && added != Some(c) ==> (Ready(now, c) <==> Ready(was, c) && used != Some(c)))
    && (added.Some? ==> now.connmap[added.value] == host && !Ready(now, added.value))
  }

  lemma {:induction false} WithoutNothing(list: seq<Conn>, gone: set<Conn>)
    requires forall c :: c in list ==> c !in gone
    ensures Without(list, gone) == list
  {
    if list != [] { WithoutNothing(list[1..], gone); }
  }

  lemma {:induction false} WithoutMembers(list: seq<Conn>, gone: set<Conn>)
    ensures forall c :: c in Without(list, gone) <==> c in list && c !in gone
  {
    if list != [] {
      WithoutMembers(list[1..], gone);
      assert forall c :: c in list <==> c == list[0] || c in list[1..];
    }
  }

  lemma WithoutCons(c: Conn, list: seq<Conn>, gone: set<Conn>)
    ensures Without([c] + list, gone) == (if c in gone then [] else [c]) + Without(list, gone)
  {
    assert ([c] + list)[1..] == list;
  }

  lemma {:induction false} WithoutTwice(list: seq<Conn>, a: set<Conn>, b: set<Conn>)
    ensures Without(Without(list, a), b) == Without(list, a + b)
  {
    if list != [] {
      WithoutTwice(list[1..], a, b);
      assert list == [list[0]] + list[1..];
      WithoutCons(list[0], list[1..], a);
      WithoutCons(list[0], list[1..], a + b);
      WithoutCons(list[0], Without(list[1..], a), b);
      assert [] + Without(list[1..], a) == Without(list[1..], a);
    }
  }

  lemma {:induction false} RemoveFirstIsWithout(list: seq<Conn>, c: Conn)
    requires Distinct(list)
    ensures RemoveFirst(list, c) == Without(list, {c})
  {
    if c !in list {
      RemoveFirstAbsent(list, c);
      WithoutNothing(list, {c});
    } else {
      RemoveFirstCons(list, c);
      hide RemoveFirst;
      if list[0] == c {
        WithoutNothing(list[1..], {c});
      } else {
        RemoveFirstIsWithout(list[1..], c);
      }
    }
  }

  /** Nothing has happened, or one more thing has. */
  lemma Unchanged(p: Maps, host: Host)
    ensures Changed(p, p, host, {}, None, None)
  {
    forall h ensures Without(Listed(p, h), {}) == Listed(p, h) { WithoutNothing(Listed(p, h), {}); }
  }

  lemma RemoveChanges(was: Maps, p: Maps, host: Host, gone: set<Conn>, used: Option<Conn>, c: Conn)
    requires Agree(p) && Changed(was, p, host, gone, used, None)
    ensures Changed(was, Removed(p, c), host, gone + {c}, used, None)
  {
    hide Agree, Removed, Without, Members;
    RemoveMembers(was, p, host, gone, used, c);
    forall h ensures Listed(Removed(p, c), h) == Without(Listed(was, h), gone + {c}) {
      assert Listed(p, h) == Without(Listed(was, h), gone);
      hide Listed;
      RemoveListed(p, c, h);
      WithoutTwice(Listed(was, h), gone, {c});
    }
  }

  lemma RemoveListed(p: Maps, c: Conn, h: Host)
    requires Agree(p)
    ensures Listed(Removed(p, c), h) == Without(Listed(p, h), {c})
  {
    DistinctListed(p, h);
    hide Agree, Removed, Without, Listed, RemoveFirst;
    RemoveAgrees(p, c);
    RemoveFirstIsWithout(Listed(p, h), c);
  }

  lemma RemoveMembers(was: Maps, p: Maps, host: Host, gone: set<Conn>, used: Option<Conn>, c: Conn)
    requires Agree(p) && Members(was, p, host, gone, used, None)
    ensures Members(was, Removed(p, c), host, gone + {c}, used, None)
  {
    RemovedFlags(p, c);
    hide Agree, Removed, Ready;
  }

  lemma RemovedFlags(p: Maps, c: Conn)
    requires Agree(p)
    ensures forall d :: d in Removed(p, c).connmap <==> d in p.connmap && d != c
    ensures forall d :: d in Removed(p, c).connmap ==> Removed(p, c).connmap[d] == p.connmap[d]
    ensures forall d :: d in Removed(p, c).connmap ==> (Ready(Removed(p, c), d) <==> Ready(p, d))
  {
  }

  function Elements(cs: seq<Conn>): set<Conn> { set c | c in cs }

  lemma ElementsSnoc(cs: seq<Conn>, c: Conn)
    ensures Elements(cs + [c]) == Elements(cs) + {c}
  {
  }

  lemma {:induction false} RemovedAllChanges(p: Maps, host: Host, cs: seq<Conn>)
    requires Agree(p)
    ensures Changed(p, RemovedAll(p, cs), host, Elements(cs), None, None)
  {
    hide Agree, Changed, Removed;
    if cs == [] {
      Unchanged(p, host);
      assert Elements(cs) == {};
    } else {
      var init, c := cs[..|cs| - 1], cs[|cs| - 1];
      RemovedAllChanges(p, host, init);
      RemoveChanges(p, RemovedAll(p, init), host, Elements(init), None, c);
      assert cs == init + [c];
      ElementsSnoc(init, c);
    }
  }

  lemma UseChanges(was: Maps, p: Maps, host: Host, gone: set<Conn>, c: Conn)
    requires Changed(was, p, host, gone, None, None)
    ensures Changed(was, WithReady(p, c, false), host, gone, Some(c), None)
  {
    var q := WithReady(p, c, false);
    assert forall h :: Listed(q, h) == Listed(p, h);
    hide Without, Listed;
  }

  lemma AddChanges(was: Maps, p: Maps, host: Host, gone: set<Conn>, c: Conn)
    requires Changed(was, p, host, gone, None, None) && c !in was.connmap
    ensures Changed(was, Added(p, host, c, false), host, gone, None, Some(c))
  {
    AddedLists(p, host, c, false);
    hide Added, Without, Listed;
  }

  /** A new connection that is removed again leaves no trace. */
  lemma AddedRemoved(was: Maps, p: Maps, host: Host, gone: set<Conn>, c: Conn)
    requires Agree(p) && Changed(was, p, host, gone, None, None) && c !in was.connmap
    ensures Changed(was, Removed(Added(p, host, c, false), c), host, gone, None, None)
  {
    var q := Added(p, host, c, false);
    assert c !in p.connmap;
    AddAgrees(p, host, c, false);
    AddedRemovedMembers(was, p, host, gone, c);
    forall h ensures Listed(Removed(q, c), h) == Listed(p, h) {
      hide Agree, Removed, Added, Listed, Without, Members, RemoveFirst;
      AddedLists(p, host, c, false);
      RemoveAgrees(q, c);
      LastRemoved(p, q, h, host, c);
    }
    hide Agree, Removed, Without, Listed, Added, Members;
  }

  lemma AddedRemovedMembers(was: Maps, p: Maps, host: Host, gone: set<Conn>, c: Conn)
    requires Agree(p) && Agree(Added(p, host, c, false)) && c !in p.connmap && Members(was, p, host, gone, None, None)
    ensures Members(was, Removed(Added(p, host, c, false), c), host, gone, None, None)
  {
    hide Agree, Removed, Added, Ready;
    AddedFlags(p, host, c);
    RemovedFlags(Added(p, host, c, false), c);
  }

  lemma AddedFlags(p: Maps, host: Host, c: Conn)
    ensures forall d :: d in Added(p, host, c, false).connmap <==> d in p.connmap || d == c
    ensures forall d :: d in p.connmap && d != c ==> Added(p, host, c, false).connmap[d] == p.connmap[d]
    ensures forall d :: d != c ==> (Ready(Added(p, host, c, false), d) <==> Ready(p, d))
    ensures Added(p, host, c, false).connmap[c] == host && !Ready(Added(p, host, c, false), c)
  {
  }

  lemma LastRemoved(p: Maps, q: Maps, h: Host, host: Host, c: Conn)
    requires Agree(p) && c !in p.connmap
    requires Listed(q, h) == if h == host then Listed(p, h) + [c] else Listed(p, h)
    ensures RemoveFirst(Listed(q, h), c) == Listed(p, h)
  {
    ListedExactly(p, h);
    assert c !in Listed(p, h);
    if h == host {
      assert IndexOf(Listed(p, h) + [c], c) == |Listed(p, h)|;
    } else {
      RemoveFirstAbsent(Listed(p, h), c);
    }
  }

  lemma OpenChanges(was: Maps, host: Host, reuse: Conn -> Transaction, newConn: Conn, start: Transaction)
    requires Agree(was) && newConn !in was.connmap
    ensures
      var ready := ReadyList(was, host);
      var k := BadPrefix(ready, reuse);
      var gone := Elements(ready[..k]) + if k < |ready| && reuse(ready[k]) != Works(false) then {ready[k]} else {};
      Changed(was, OpenState(was, host, reuse, newConn, start), host, gone,
              if k < |ready| then Some(ready[k]) else None,
              if k == |ready| && start != Works(true) then Some(newConn) else None)
  {
    hide Agree, Changed, ReadyOf, RemovedAll, Removed, Added, WithReady;
    var ready := ReadyList(was, host);
    var k := BadPrefix(ready, reuse);
    var stale := Elements(ready[..k]);
    var mid := RemovedAll(was, ready[..k]);
    RemovedAllChanges(was, host, ready[..k]);
    if k < |ready| {
      UseChanges(was, mid, host, stale, ready[k]);
      ReadyAgrees(mid, ready[k], false);
      assert stale + {} == stale;
      if reuse(ready[k]) != Works(false) {
        RemoveChanges(was, WithReady(mid, ready[k], false), host, stale, Some(ready[k]), ready[k]);
      }
    } else {
      assert stale + {} == stale;
      AddChanges(was, mid, host, stale, newConn);
      AddedRemoved(was, mid, host, stale, newConn);
    }
  }

  /**
   * The same, said of the connection that answers or fails: one that answers stays pooled for its host, in use, if
   * and only if the server will not close it; one that was ready and fails in an unexpected way is gone.
   */
  ghost predicate Handled(was: Maps, now: Maps, host: Host, reuse: Conn -> Transaction, newConn: Conn,
                          start: Transaction, r: Result<Conn, OpenError>)
  {
    && (r.Ok? ==>
          var c := r.value;
          var t := if c == newConn then start else reuse(c);
          && t.Works?
          && (c in now.connmap <==> !t.willClose)
          && (c in now.connmap ==> now.connmap[c] == host && c in Listed(now, host) && !Ready(now, c))
          && (c != newConn ==> c in was.connmap && was.connmap[c] == host && Ready(was, c)))
    && (r == Err(UrlError) ==> start.Bad? && newConn in now.connmap && !Ready(now, newConn))
    && (newConn in now.connmap ==>
          r == if start.Works? then Ok(newConn) else if start.Bad? then Err(UrlError) else Err(Other))
    && (forall c :: Lost(was, now, c) && !reuse(c).Works? ==> c !in now.connmap)
  }

  /** A pooled connection was ready, and is not any more. */
  ghost predicate Lost(was: Maps, now: Maps, c: Conn) { c in was.connmap && Ready(was, c) && !Ready(now, c) }

  lemma UsedHandled(was: Maps, now: Maps, host: Host, stale: set<Conn>, c: Conn, stays: bool)
    requires Agree(now) && c in was.connmap && was.connmap[c] == host && c !in stale
    requires Changed(was, now, host, stale + (if stays then {} else {c}), Some(c), None)
    ensures c in now.connmap <==> stays
    ensures c in now.connmap ==> now.connmap[c] == host && c in Listed(now, host) && !Ready(now, c)
    ensures forall d :: Lost(was, now, d) && d in now.connmap ==> d == c && stays
    ensures forall d :: d in now.connmap ==> d in was.connmap
  {
    ListedExactly(now, host);
    hide Agree, Ready, Listed;
  }

  lemma NewHandled(was: Maps, now: Maps, host: Host, stale: set<Conn>, c: Conn, stays: bool)
    requires Agree(now) && c !in was.connmap
    requires Changed(was, now, host, stale, None, if stays then Some(c) else None)
    ensures c in now.connmap <==> stays
    ensures c in now.connmap ==> now.connmap[c] == host && c in Listed(now, host) && !Ready(now, c)
    ensures forall d :: Lost(was, now, d) ==> d !in now.connmap
  {
    ListedExactly(now, host);
    hide Agree, Ready, Listed;
  }

  lemma OpenAgrees(was: Maps, host: Host, reuse: Conn -> Transaction, newConn: Conn, start: Transaction)
    requires Agree(was) && newConn !in was.connmap
    ensures Agree(OpenState(was, host, reuse, newConn, start))
  {
    hide Agree, ReadyOf, RemovedAll, Removed, Added, WithReady;
    var ready := ReadyList(was, host);
    var k := BadPrefix(ready, reuse);
    var mid := RemovedAll(was, ready[..k]);
    if k < |ready| {
      ReadyAgrees(mid, ready[k], false);
      RemoveAgrees(WithReady(mid, ready[k], false), ready[k]);
    } else {
      RemovedAllMembers(was, ready[..k]);
      AddAgrees(mid, host, newConn, false);
      RemoveAgrees(Added(mid, host, newConn, false), newConn);
    }
  }

  lemma OpenMeans(was: Maps, host: Host, reuse: Conn -> Transaction, newConn: Conn, start: Transaction)
    requires Agree(was) && newConn !in was.connmap
    ensures Handled(was, OpenState(was, host, reuse, newConn, start), host, reuse, newConn, start,
                    OpenResult(was, host, reuse, newConn, start))
  {
    hide Agree, ReadyOf, OpenState, Listed, Ready, ReadyList, Changed, Lost;
    var ready, now := ReadyList(was, host), OpenState(was, host, reuse, newConn, start);
    var k := BadPrefix(ready, reuse);
    OpenChanges(was, host, reuse, newConn, start);
    OpenAgrees(was, host, reuse, newConn, start);
    ReadyMembers(was, host);
    var stale := Elements(ready[..k]);
    if k < |ready| {
      assert ready[k] in ready && forall c :: c in stale ==> reuse(c).Bad?;
      UsedHandled(was, now, host, stale, ready[k], reuse(ready[k]) == Works(false));
    } else {
      assert stale + {} == stale;
      NewHandled(was, now, host, stale, newConn, start != Works(true));
    }
  }

  lemma ReadyMembers(p: Maps, host: Host)
    requires Agree(p)
    ensures forall c :: c in ReadyList(p, host) <==> c in p.connmap && p.connmap[c] == host && Ready(p, c)
  {
    ReadyOfMembers(Listed(p, host), p.readymap);
    ListedExactly(p, host);
  }

  /** Of the connections in the second pool, all are in the first, with the same flag. */
  ghost predicate SameFlags(was: Maps, now: Maps) {
    forall c :: c in now.connmap ==> c in was.connmap && Ready(now, c) == Ready(was, c)
  }

  lemma FlagsKept(was: Maps, here: Maps, now: Maps)
    requires SameFlags(was, here)
    ensures (forall c :: c in now.connmap ==> c in here.connmap && Ready(now, c) == Ready(here, c))
            ==> SameFlags(was, now)
  {
  }

  class KeepAliveHandler {
    const cm: ConnectionManager

    constructor ()
      ensures fresh(cm) && cm.State() == EMPTY
    {
      cm := new ConnectionManager();
    }

    /**
     * Stale ready connections are discarded in pool order until one answers. A new connection is made only when
     * none of them does; if its own transaction fails it stays in the pool, not ready. A connection that answers
     * stays in the pool, in use, unless the server will close it; one that fails in an unexpected way goes.
     */
    method DoOpen(host: Host, reuse: Conn -> Transaction, newConn: Conn, start: Transaction)
      returns (r: Result<Conn, OpenError>)
      requires Agree(cm.State()) && newConn !in cm.connmap
      modifies cm
      ensures Agree(cm.State())
      ensures host == "" ==> r == Err(NoHost) && cm.State() == old(cm.State())
      ensures host != "" ==>
        && cm.State() == OpenState(old(cm.State()), host, reuse, newConn, start)
        && r == OpenResult(old(cm.State()), host, reuse, newConn, start)
      ensures host != "" ==>
        var ready := ReadyList(old(cm.State()), host);
        var k := BadPrefix(ready, reuse);
        var leaves := k < |ready| && reuse(ready[k]) != Works(false);
        Changed(old(cm.State()), cm.State(), host,
                Elements(ready[..k]) + (if leaves then {ready[k]} else {}),
                if k < |ready| then Some(ready[k]) else None,
                if k == |ready| && start != Works(true) then Some(newConn) else None)
      ensures host != "" ==> Handled(old(cm.State()), cm.State(), host, reuse, newConn, start, r)
    {
      hide Agree, ReadyOf, RemovedAll, Removed, Added, RemoveFirst, Changed, Handled, Ready, Listed, Elements, ReadyList,
        OpenState, OpenResult, BadPrefix;
      if host == "" {
        return Err(NoHost);
      }
      ghost var was := cm.State();
      OpenChanges(was, host, reuse, newConn, start);
      OpenMeans(was, host, reuse, newConn, start);
      ghost var ready := ReadyList(was, host);
      ghost var k := 0;
      ghost var mid := was;
      RemovedNone(was, ready);
      var h := cm.GetReadyConn(host);
      while h.Some?
        invariant 0 <= k <= |ready| && mid == RemovedAll(was, ready[..k])
        invariant ReadyList(mid, host) == ready[k..]
        invariant forall i :: 0 <= i < k ==> reuse(ready[i]).Bad?
        invariant h.Some? <==> k < |ready|
        invariant k == |ready| ==> cm.State() == mid
        invariant k < |ready| ==> h.value == ready[k] && cm.State() == WithReady(mid, h.value, false)
        decreases |ready| - k
      {
        DiscardFirstReady(mid, host);
        ReadyAgrees(mid, h.value, false);
        match reuse(h.value) {
          case Works(willClose) =>
            OpenAt(was, host, reuse, newConn, start, k);
            if willClose {
              cm.Remove(h.value);
            }
            return Ok(h.value);
          case Unexpected =>
            OpenAt(was, host, reuse, newConn, start, k);
            cm.Remove(h.value);
            return Err(Other);
          case Bad =>
            cm.Remove(h.value);
            RemovedAllSnoc(was, ready, k);
            k := k + 1;
            mid := cm.State();
            h := cm.GetReadyConn(host);
        }
      }
      OpenAt(was, host, reuse, newConn, start, k);
      RemovedAllMembers(was, ready[..k]);
      AddAgrees(mid, host, newConn, false);
      cm.Add(host, newConn, false);
      if !start.Works? {
        return Err(if start.Bad? then UrlError else Other);
      }
      if start.willClose {
        cm.Remove(newConn);
      }
      return Ok(newConn);
    }

    /**
     * Closes every connection to the host and no other. An empty host name makes it walk the host names instead,
     * and a string has no close: nothing is removed, and it fails unless the pool is empty.
     */
    method CloseConnection(host: Host) returns (r: Result<seq<Conn>, CloseError>)
      requires Agree(cm.State())
      modifies cm
      ensures Agree(cm.State())
      ensures r.Err? <==> host == "" && old(cm.hostmap) != map[]
      ensures host == "" ==> cm.State() == old(cm.State())
      ensures host != "" ==>
        && r == Ok(Listed(old(cm.State()), host))
        && cm.State() == RemovedAll(old(cm.State()), r.value)
        && Changed(old(cm.State()), cm.State(), host, Elements(r.value), None, None)
        && host !in cm.hostmap
        && forall h :: h != host ==> Listed(cm.State(), h) == Listed(old(cm.State()), h)
    {
      hide Agree, RemovedAll, Removed, RemoveFirst, Changed;
      ghost var was := cm.State();
      var all := cm.GetAll(host);
      if all.OfAll? {
        return if all.hosts == map[] then Ok([]) else Err(NoSuchMethod);
      }
      var conns, closed := all.conns, [];
      RemovedNone(was, conns);
      var i := 0;
      while i < |conns|
        invariant 0 <= i <= |conns| && closed == conns[..i]
        invariant Agree(cm.State()) && cm.State() == RemovedAll(was, closed)
      {
        cm.Remove(conns[i]);
        RemovedAllSnoc(was, conns, i);
        closed := closed + [conns[i]];
        assert closed == conns[..i + 1];
        i := i + 1;
      }
      assert closed == conns;
      RemovedHost(was, cm.State(), host);
      RemovedAllChanges(was, host, closed);
      return Ok(closed);
    }

    /** Walks the live host lists while removing from them, and so passes over every other connection. */
    method CloseAll()
      requires Agree(cm.State())
      modifies cm
      ensures Agree(cm.State())
      ensures forall h :: Listed(cm.State(), h) == PassedOver(Listed(old(cm.State()), h), 0)
      ensures SameFlags(old(cm.State()), cm.State())
    {
      ghost var was := cm.State();
      var all := cm.GetAll("");
      var todo := all.hosts.Keys;
      while todo != {}
        invariant Agree(cm.State())
        invariant forall h :: Listed(cm.State(), h) == if h in todo then Listed(was, h) else PassedOver(Listed(was, h), 0)
        invariant SameFlags(was, cm.State())
        decreases todo
      {
        var host :| host in todo;
        ghost var here := cm.State();
        CloseWalking(host);
        FlagsKept(was, here, cm.State());
        todo := todo - {host};
      }
    }

    /** The copied dictionary still holds the very lists that Remove shortens; a list it empties stays empty. */
    method CloseWalking(host: Host)
      requires Agree(cm.State())
      modifies cm
      ensures Agree(cm.State())
      ensures forall h :: Listed(cm.State(), h)
                       == if h == host then PassedOver(Listed(old(cm.State()), h), 0) else Listed(old(cm.State()), h)
      ensures SameFlags(old(cm.State()), cm.State())
    {
      ghost var was := cm.State();
      var i := 0;
      var conns := if host in cm.hostmap then cm.hostmap[host] else [];
      while i < |conns|
        invariant 0 <= i
        invariant Agree(cm.State()) && conns == Listed(cm.State(), host)
        invariant PassedOver(conns, i) == PassedOver(Listed(was, host), 0)
        invariant forall h :: h != host ==> Listed(cm.State(), h) == Listed(was, h)
        invariant SameFlags(was, cm.State())
        decreases |conns| - i
      {
        ghost var here := cm.State();
        RemoveAgrees(here, conns[i]);
        RemovedFlags(here, conns[i]);
        FlagsKept(was, here, Removed(here, conns[i]));
        IndexInDistinct(conns, i);
        forall h | h != host ensures conns[i] !in Listed(here, h) { }
        cm.Remove(conns[i]);
        conns := if host in cm.hostmap then cm.hostmap[host] else [];
        i := i + 1;
      }
    }
  }

  lemma IndexInDistinct<T>(s: seq<T>, i: nat)
    requires i < |s| && Distinct(s)
    ensures RemoveFirst(s, s[i]) == DeleteAt(s, i)
  {
    assert IndexOf(s, s[i]) == i;
  }

  /** What is left of a list when each step of a walk over it, now at position i, deletes the element it stands on. */
  function PassedOver<T>(list: seq<T>, i: nat): seq<T>
    decreases |list| - i
  {
    if i >= |list| then list else PassedOver(DeleteAt(list, i), i + 1)
  }

  /** The walk leaves exactly the elements at odd distance from where it starts. */
  lemma {:induction false} PassedOverExact<T>(list: seq<T>, i: nat)
    requires i <= |list|
    ensures |PassedOver(list, i)| == i + (|list| - i) / 2
    decreases |list| - i
  {
    if i == |list| - 1 {
      assert PassedOver(list, i) == PassedOver(DeleteAt(list, i), i + 1) == DeleteAt(list, i);
    } else if i < |list| {
      PassedOverExact(DeleteAt(list, i), i + 1);
    }
  }

  lemma {:induction false} PassedOverAt<T>(list: seq<T>, i: nat, k: nat)
    requires i <= |list| && k < i + (|list| - i) / 2
    ensures k < |PassedOver(list, i)|
    ensures PassedOver(list, i)[k] == if k < i then list[k] else list[i + 2 * (k - i) + 1]
    decreases |list| - i
  {
    PassedOverExact(list, i);
    if i == |list| - 1 {
      assert PassedOver(list, i) == PassedOver(DeleteAt(list, i), i + 1) == DeleteAt(list, i);
    } else if i < |list| {
      PassedOverAt(DeleteAt(list, i), i + 1, k);
    }
  }

  /** close_all empties the pool exactly when no host has more than one connection. */
  lemma CloseAllCloses(before: Maps, after: Maps)
    requires Agree(before) && Agree(after)
    requires forall h :: Listed(after, h) == PassedOver(Listed(before, h), 0)
    ensures after.hostmap == map[] <==> forall h :: h in before.hostmap ==> |before.hostmap[h]| == 1
  {
    forall h ensures |Listed(after, h)| == |Listed(before, h)| / 2 {
      PassedOverExact(Listed(before, h), 0);
    }
    if after.hostmap == map[] {
      forall h | h in before.hostmap ensures |before.hostmap[h]| == 1 {
        assert |Listed(after, h)| == |Listed(before, h)| / 2;
      }
    } else {
      var h :| h in after.hostmap;
      assert |Listed(after, h)| == |Listed(before, h)| / 2;
    }
  }
}
