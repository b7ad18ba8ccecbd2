/** keepalive.py: the connection pool's three maps, and the handler that opens and closes connections with it. */
module Pool {
  import opened Wrappers
  import opened Sequences

  type Host = string
  type Conn = nat

  datatype Maps = Maps(hostmap: map<Host, seq<Conn>>, connmap: map<Conn, Host>, readymap: map<Conn, bool>)

  /**
   * The maps agree: hostmap and connmap are inverse, host lists are non-empty and duplicate-free, every
   * pooled connection has a ready flag.
   */
  ghost predicate Agree(p: Maps) {
    && (forall c :: c in p.connmap ==> p.connmap[c] in p.hostmap && c in p.hostmap[p.connmap[c]])
    && (forall h :: h in p.hostmap ==> p.hostmap[h] != [] && Distinct(p.hostmap[h]))
    && (forall h, c :: h in p.hostmap && c in p.hostmap[h] ==> c in p.connmap && p.connmap[c] == h)
    && p.connmap.Keys <= p.readymap.Keys
  }

  function Listed(p: Maps, host: Host): seq<Conn> { if host in p.hostmap then p.hostmap[host] else [] }

  predicate Ready(p: Maps, c: Conn) { c in p.readymap && p.readymap[c] }

  const EMPTY := Maps(map[], map[], map[])

  // ---- The operations as functions of the maps ----

  function Added(p: Maps, host: Host, c: Conn, ready: bool): Maps {
    Maps(p.hostmap[host := Listed(p, host) + [c]], p.connmap[c := host], p.readymap[c := ready])
  }

  /** In an agreeing pool the host of a pooled connection is always listed. */
  function Removed(p: Maps, c: Conn): Maps {
    if c !in p.connmap || p.connmap[c] !in p.hostmap then p
    else
      var host := p.connmap[c];
      var left := RemoveFirst(p.hostmap[host], c);
      Maps(if left == [] then p.hostmap - {host} else p.hostmap[host := left], p.connmap - {c}, p.readymap - {c})
  }

  function WithReady(p: Maps, c: Conn, ready: bool): Maps { p.(readymap := p.readymap[c := ready]) }

  /** The ready connections to a host, in pool order. */
  function ReadyOf(list: seq<Conn>, readymap: map<Conn, bool>): seq<Conn> {
    if list == [] then []
    else (if list[0] in readymap && readymap[list[0]] then [list[0]] else []) + ReadyOf(list[1..], readymap)
  }

  function ReadyList(p: Maps, host: Host): seq<Conn> { ReadyOf(Listed(p, host), p.readymap) }

  // ---- Agreement is kept ----

  lemma AddedLists(p: Maps, host: Host, c: Conn, ready: bool)
    ensures
      var q := Added(p, host, c, ready);
      && q.connmap == p.connmap[c := host] && q.readymap == p.readymap[c := ready]
      && (forall h :: Listed(q, h) == if h == host then Listed(p, h) + [c] else Listed(p, h))
      && (forall h :: h in q.hostmap ==> h == host || (h in p.hostmap && q.hostmap[h] == p.hostmap[h]))
      && q.hostmap[host] != []
  {
  }

  lemma AddedListsAgree(p: Maps, host: Host, c: Conn, ready: bool)
    requires ListsAgree(p) && c !in p.connmap
    ensures ListsAgree(Added(p, host, c, ready))
  {
    hide Distinct, Listed, Added;
    AddedLists(p, host, c, ready);
    DistinctSnoc(Listed(p, host), c);
  }

  lemma AddAgrees(p: Maps, host: Host, c: Conn, ready: bool)
    requires Agree(p) && c !in p.connmap
    ensures Agree(Added(p, host, c, ready))
  {
    hide *;
    AgreeIsListsAgree(p);
    AddedListsAgree(p, host, c, ready);
    AgreeIsListsAgree(Added(p, host, c, ready));
  }

  lemma DistinctSnoc(list: seq<Conn>, c: Conn)
    requires Distinct(list) && c !in list
    ensures Distinct(list + [c])
  {
  }

  lemma RemoveAgrees(p: Maps, c: Conn)
    requires Agree(p)
    ensures Agree(Removed(p, c))
    ensures forall d :: d in Removed(p, c).connmap <==> d in p.connmap && d != c
    ensures forall h :: Listed(Removed(p, c), h) == RemoveFirst(Listed(p, h), c)
  {
    if c in p.connmap {
      RemovePooled(p, c);
    } else {
      forall h ensures RemoveFirst(Listed(p, h), c) == Listed(p, h) {
        RemoveFirstAbsent(Listed(p, h), c);
      }
    }
  }

  /** Agreement in terms of the lists alone. */
  ghost predicate ListsAgree(p: Maps) {
    && (forall h, c :: c in Listed(p, h) <==> c in p.connmap && p.connmap[c] == h)
    && (forall h :: Distinct(Listed(p, h)))
    && (forall h :: h in p.hostmap ==> p.hostmap[h] != [])
    && p.connmap.Keys <= p.readymap.Keys
  }

  lemma AgreeIsListsAgree(p: Maps)
    ensures Agree(p) <==> ListsAgree(p)
  {
    hide Distinct;
    if ListsAgree(p) {
      forall h | h in p.hostmap ensures p.hostmap[h] == Listed(p, h) { }
      forall c | c in p.connmap ensures p.connmap[c] in p.hostmap && c in p.hostmap[p.connmap[c]] {
        assert c in Listed(p, p.connmap[c]);
      }
      forall h, c | h in p.hostmap && c in p.hostmap[h] ensures c in p.connmap && p.connmap[c] == h {
        assert c in Listed(p, h);
      }
    }
    if Agree(p) {
      forall h ensures Distinct(Listed(p, h)) { NoneDistinct(); }
    }
  }

  lemma NoneDistinct()
    ensures Distinct<Conn>([])
  {
  }

  lemma RemovedLists(p: Maps, c: Conn)
    requires Agree(p) && c in p.connmap
    ensures
      var q := Removed(p, c);
      && q.connmap == p.connmap - {c} && q.readymap == p.readymap - {c}
      && (forall h :: Listed(q, h) == RemoveFirst(Listed(p, h), c))
      && (forall h :: h in q.hostmap ==> q.hostmap[h] != [])
  {
    forall h | h != p.connmap[c] ensures RemoveFirst(Listed(p, h), c) == Listed(p, h) {
      RemoveFirstAbsent(Listed(p, h), c);
    }
    hide Distinct, RemoveFirst;
  }

  lemma RemovedMember(p: Maps, c: Conn, h: Host, d: Conn)
    requires Agree(p) && c in p.connmap
    ensures
      var q := Removed(p, c);
      Distinct(Listed(q, h)) && (d in Listed(q, h) <==> d in q.connmap && q.connmap[d] == h)
  {
    RemovedLists(p, c);
    RemoveFirstDistinct(Listed(p, h), c);
    assert d in Listed(p, h) <==> d in p.connmap && p.connmap[d] == h;
    hide Agree, Removed, Listed, RemoveFirst;
  }

  lemma RemovedListsAgree(p: Maps, c: Conn)
    requires Agree(p) && c in p.connmap
    ensures ListsAgree(Removed(p, c))
  {
    hide Agree, Distinct, RemoveFirst, Removed, Listed;
    RemovedLists(p, c);
    RemovedKeys(p, c);
    forall h, d
      ensures d in Listed(Removed(p, c), h) <==> d in Removed(p, c).connmap && Removed(p, c).connmap[d] == h
      ensures Distinct(Listed(Removed(p, c), h))
    {
      RemovedMember(p, c, h, d);
    }
  }

  lemma RemovePooled(p: Maps, c: Conn)
    requires Agree(p) && c in p.connmap
    ensures Agree(Removed(p, c))
    ensures forall d :: d in Removed(p, c).connmap <==> d in p.connmap && d != c
    ensures forall h :: Listed(Removed(p, c), h) == RemoveFirst(Listed(p, h), c)
  {
    hide *;
    RemovedLists(p, c);
    RemovedListsAgree(p, c);
    AgreeIsListsAgree(Removed(p, c));
  }

  lemma RemovedKeys(p: Maps, c: Conn)
    requires Agree(p)
    ensures Removed(p, c).connmap.Keys <= Removed(p, c).readymap.Keys
  {
  }

  lemma ReadyAgrees(p: Maps, c: Conn, ready: bool)
    requires Agree(p)
    ensures Agree(WithReady(p, c, ready))
  {
  }

  /** set_ready on a connection no longer pooled revives its flag but not the connection: the key sets then differ. */
  lemma ReadyKeysDiffer(p: Maps, c: Conn)
    requires Agree(p) && p.connmap.Keys == p.readymap.Keys
    ensures WithReady(p, c, true).connmap.Keys == WithReady(p, c, true).readymap.Keys <==> c in p.connmap
  {
    assert c in WithReady(p, c, true).readymap.Keys;
    if c in p.connmap { assert WithReady(p, c, true).readymap.Keys == p.readymap.Keys; }
  }

  lemma {:induction false} ReadyOfMembers(list: seq<Conn>, readymap: map<Conn, bool>)
    ensures forall c :: c in ReadyOf(list, readymap) <==> c in list && c in readymap && readymap[c]
  {
    if list != [] {
      ReadyOfMembers(list[1..], readymap);
      assert forall c :: c in list <==> c == list[0] || c in list[1..];
    }
  }

  lemma {:induction false} ReadyOfFrame(list: seq<Conn>, a: map<Conn, bool>, b: map<Conn, bool>)
    requires forall c :: c in list ==> (c in a && a[c] <==> c in b && b[c])
    ensures ReadyOf(list, a) == ReadyOf(list, b)
  {
    if list != [] { ReadyOfFrame(list[1..], a, b); }
  }

  lemma ReadyOfCons(list: seq<Conn>, readymap: map<Conn, bool>)
    requires list != []
    ensures ReadyOf(list, readymap)
         == if list[0] in readymap && readymap[list[0]] then [list[0]] + ReadyOf(list[1..], readymap)
            else ReadyOf(list[1..], readymap)
  {
  }

  /** Dropping the first ready connection of a host list leaves the rest of the ready ones. */
  lemma {:induction false} ReadyOfDropFirst(list: seq<Conn>, readymap: map<Conn, bool>)
    requires Distinct(list) && ReadyOf(list, readymap) != []
    ensures
      var c := ReadyOf(list, readymap)[0];
      c in list && ReadyOf(RemoveFirst(list, c), readymap - {c}) == ReadyOf(list, readymap)[1..]
  {
    assert list != [];
    hide RemoveFirst, ReadyOf;
    var c := ReadyOf(list, readymap)[0];
    ReadyOfCons(list, readymap);
    if list[0] in readymap && readymap[list[0]] {
      RemoveFirstCons(list, c);
      ReadyOfFrame(list[1..], readymap, readymap - {c});
    } else {
      ReadyOfDropFirst(list[1..], readymap);
      RemoveFirstCons(list, c);
      ReadyOfCons(RemoveFirst(list, c), readymap - {c});
      assert RemoveFirst(list, c)[1..] == RemoveFirst(list[1..], c);
    }
  }

  /** The first ready connection of a host: none before it in the list is ready; there is none if none is ready. */
  lemma {:induction false} FirstReady(list: seq<Conn>, readymap: map<Conn, bool>)
    ensures
      var ready := ReadyOf(list, readymap);
      if ready == [] then forall c :: c in list ==> !(c in readymap && readymap[c])
      else exists i :: 0 <= i < |list| && list[i] == ready[0] && ready[0] in readymap && readymap[ready[0]]
                       && forall j :: 0 <= j < i ==> !(list[j] in readymap && readymap[list[j]])
  {
    if list != [] {
      ReadyOfCons(list, readymap);
      if list[0] in readymap && readymap[list[0]] {
        assert list[0] == ReadyOf(list, readymap)[0];
      } else {
        FirstReady(list[1..], readymap);
        if ReadyOf(list[1..], readymap) != [] {
          var i :| 0 <= i < |list[1..]| && list[1..][i] == ReadyOf(list[1..], readymap)[0]
                   && forall j :: 0 <= j < i ==> !(list[1..][j] in readymap && readymap[list[1..][j]]);
          assert list[i + 1] == list[1..][i];
          forall j | 0 <= j < i + 1 ensures !(list[j] in readymap && readymap[list[j]]) {
            if j > 0 { assert list[j] == list[1..][j - 1]; }
          }
        } else {
          assert forall c :: c in list ==> c == list[0] || c in list[1..];
        }
      }
    }
  }

  /** What add, remove and set_ready do to each of the maps. */
  lemma MapsChanged(p: Maps, host: Host, c: Conn, ready: bool)
    requires Agree(p)
    ensures Added(p, host, c, ready)
         == Maps(p.hostmap[host := (if host in p.hostmap then p.hostmap[host] else []) + [c]],
                 p.connmap[c := host], p.readymap[c := ready])
    ensures WithReady(p, c, ready) == Maps(p.hostmap, p.connmap, p.readymap[c := ready])
    ensures c !in p.connmap ==> Removed(p, c) == p
    ensures c in p.connmap ==>
      var q, list := Removed(p, c), p.hostmap[p.connmap[c]];
      && q.connmap == p.connmap - {c} && q.readymap == p.readymap - {c}
      && (|list| == 1 ==> q.hostmap == p.hostmap - {p.connmap[c]})
      && (|list| > 1 ==> exists i :: 0 <= i < |list| && list[i] == c
                                     && q.hostmap == p.hostmap[p.connmap[c] := list[..i] + list[i + 1..]])
  {
    if c in p.connmap {
      var list := p.hostmap[p.connmap[c]];
      var i := IndexOf(list, c);
      assert list[i] == c && RemoveFirst(list, c) == list[..i] + list[i + 1..];
      assert |RemoveFirst(list, c)| == |list| - 1;
    }
  }

  // ---- The manager ----

  datatype Connections = OfHost(conns: seq<Conn>) | OfAll(hosts: map<Host, seq<Conn>>)

  class ConnectionManager {
    var hostmap: map<Host, seq<Conn>>
    var connmap: map<Conn, Host>
    var readymap: map<Conn, bool>

    ghost function State(): Maps
      reads this
    {
      Maps(hostmap, connmap, readymap)
    }

    constructor ()
      ensures State() == EMPTY
    {
      hostmap, connmap, readymap := map[], map[], map[];
    }

    method Add(host: Host, connection: Conn, ready: bool)
      modifies this
      ensures State() == Added(old(State()), host, connection, ready)
    {
      if host !in hostmap {
        hostmap := hostmap[host := []];
      }
      hostmap := hostmap[host := hostmap[host] + [connection]];
      connmap := connmap[connection := host];
      readymap := readymap[connection := ready];
      assert hostmap == Added(old(State()), host, connection, ready).hostmap;
    }

    method Remove(connection: Conn)
      requires Agree(State())
      modifies this
      ensures State() == Removed(old(State()), connection) && Agree(State())
    {
      RemoveAgrees(State(), connection);
      if connection in connmap {
        var host := connmap[connection];
        connmap := connmap - {connection};
        readymap := readymap - {connection};
        hostmap := hostmap[host := RemoveFirst(hostmap[host], connection)];
        if hostmap[host] == [] {
          hostmap := hostmap - {host};
        }
        assert hostmap == Removed(old(State()), connection).hostmap;
      }
    }

    method SetReady(connection: Conn, ready: bool)
      modifies this
      ensures State() == WithReady(old(State()), connection, ready)
    {
      readymap := readymap[connection := ready];
    }

    /** Hands out the first ready connection of the host, marking it in use. */
    method GetReadyConn(host: Host) returns (conn: Option<Conn>)
      requires Agree(State())
      modifies this
      ensures var ready := ReadyList(old(State()), host);
        if ready == [] then conn == None && State() == old(State())
        else conn == Some(ready[0]) && State() == WithReady(old(State()), ready[0], false)
    {
      conn := None;
      if host in hostmap {
        var i := 0;
        while i < |hostmap[host]|
          invariant 0 <= i <= |hostmap[host]|
          invariant State() == old(State())
          invariant ReadyList(State(), host) == ReadyOf(hostmap[host][i..], readymap)
        {
          var c := hostmap[host][i];
          assert hostmap[host][i..][1..] == hostmap[host][i + 1..];
          if readymap[c] {
            readymap := readymap[c := false];
            return Some(c);
          }
          i := i + 1;
        }
      }
    }

    /** A copy of the host's list, or, for an empty host name, of the whole dictionary. */
    method GetAll(host: Host) returns (all: Connections)
      ensures all == if host == "" then OfAll(hostmap) else OfHost(Listed(State(), host))
    {
      all := if host == "" then OfAll(hostmap) else OfHost(if host in hostmap then hostmap[host] else []);
    }
  }
}
