/**
 * `ThreadSafeLoadBalancer`: a dict from name to server next to the list of names in the order
 * they were added, a round-robin cursor, and a least-connections scan over the healthy servers.
 * The reader/writer lock around the collection and the per-server locks are not modelled.
 */
module Balancer {
  import opened Seqs
  import opened Errors

  /** `Server`: its name, its open connections and its health flag. */
  datatype Server = Server(name: string, connections: int, healthy: bool)

  // ---------------------------------------------------------------------------
  // Round robin

  /**
   * `_get_rr_server` over `n` servers: the index served for cursor `cursor` and the cursor left
   * behind. Python's `%` with a positive divisor is Dafny's, so both lie in [0, n).
   */
  function RoundRobinStep(n: int, cursor: int): (r: (int, int))
    requires n > 0
    ensures 0 <= r.0 < n && 0 <= r.1 < n
    ensures r.0 == cursor % n
    ensures 0 <= cursor < n ==> r.0 == cursor
    ensures r.1 == if r.0 == n - 1 then 0 else r.0 + 1
  {
    var idx := cursor % n;
    (idx, (idx + 1) % n)
  }

  /** The servers `count` successive round-robin requests get, starting at cursor `cursor`. */
  function RoundRobinPicks(names: seq<string>, cursor: int, count: nat): (r: seq<string>)
    requires |names| > 0
    ensures |r| == count
    decreases count
  {
    if count == 0 then []
    else
      var step := RoundRobinStep(|names|, cursor);
      [names[step.0]] + RoundRobinPicks(names, step.1, count - 1)
  }

  /** Successive requests cycle through the list in order: request `j` gets `names[(cursor + j) % n]`. */
  lemma {:induction false} RoundRobinCycles(names: seq<string>, cursor: int, count: nat, j: int)
    requires |names| > 0 && 0 <= cursor && 0 <= j < count
    ensures RoundRobinPicks(names, cursor, count)[j] == names[(cursor + j) % |names|]
    decreases j
  {
    var n := |names|;
    var picks := RoundRobinPicks(names, cursor, count);
    var step := RoundRobinStep(n, cursor);
    if j > 0 {
      var rest := RoundRobinPicks(names, step.1, count - 1);
      assert picks[j] == rest[j - 1];
      RoundRobinCycles(names, step.1, count - 1, j - 1);
      ModOfSum(cursor % n + 1, j - 1, n);
      ModOfSum(cursor, j, n);
    }
  }

  /** Reducing the first summand first does not change the remainder of a sum. */
  lemma ModOfSum(a: int, b: int, n: int)
    requires n > 0
    ensures (a % n + b) % n == (a + b) % n
  {
    var q := a / n;
    var x := a % n + b;
    assert a + b == x + q * n;
    var q1, r1 := x / n, x % n;
    var q2, r2 := (x + q * n) / n, (x + q * n) % n;
    var d := q2 - q1 - q;
    assert d * n == r1 - r2 by {
      assert q2 * n + r2 == q1 * n + r1 + q * n;
    }
    assert d == 0;
  }

  /** Three servers and six requests from a fresh cursor: server1, 2, 3, 1, 2, 3. */
  lemma ScenarioRoundRobin()
    ensures RoundRobinPicks(["server1", "server2", "server3"], 0, 6) ==
      ["server1", "server2", "server3", "server1", "server2", "server3"]
  {
    var names := ["server1", "server2", "server3"];
    var picks := RoundRobinPicks(names, 0, 6);
    forall j | 0 <= j < 6 ensures picks[j] == names[j % 3] {
      RoundRobinCycles(names, 0, 6, j);
    }
  }

  // ---------------------------------------------------------------------------
  // Least connections

  /**
   * The scan of `_get_lc_server` over `names`: the index of the server it selects, None when no
   * server is healthy. A later server replaces the one held only with strictly fewer connections.
   */
  function LeastLoaded(names: seq<string>, servers: map<string, Server>): (r: Option<int>)
    requires forall j :: 0 <= j < |names| ==> names[j] in servers
    ensures r.Some? ==> 0 <= r.value < |names| && servers[names[r.value]].healthy
  {
    if names == [] then None
    else
      var best := LeastLoaded(names[..|names| - 1], servers);
      var last := servers[names[|names| - 1]];
      if last.healthy && (best.None? || last.connections < servers[names[best.value]].connections)
      then Some(|names| - 1)
      else best
  }

  /**
   * The scan selects a healthy server with the fewest connections among the healthy ones, the
   * earliest of those on a tie, and selects nothing exactly when no server is healthy.
   */
  lemma {:induction false} LeastLoadedIsLeast(names: seq<string>, servers: map<string, Server>)
    requires forall j :: 0 <= j < |names| ==> names[j] in servers
    ensures LeastLoaded(names, servers).None? <==> forall j :: 0 <= j < |names| ==> !servers[names[j]].healthy
    ensures var r := LeastLoaded(names, servers);
      r.Some? ==> forall j :: 0 <= j < |names| && servers[names[j]].healthy ==>
        servers[names[r.value]].connections <= servers[names[j]].connections &&
        (j < r.value ==> servers[names[r.value]].connections < servers[names[j]].connections)
  {
    if names != [] {
      var init := names[..|names| - 1];
      LeastLoadedIsLeast(init, servers);
      forall j | 0 <= j < |init| ensures init[j] == names[j] { }
    }
  }

  /** `_get_lc_server` on a non-empty list: the scan's choice, or the first server when none is healthy. */
  function LeastConnectionsChoice(names: seq<string>, servers: map<string, Server>): (r: string)
    requires |names| > 0 && forall j :: 0 <= j < |names| ==> names[j] in servers
    ensures r in names && r in servers
    ensures servers[r].healthy <==> exists j :: 0 <= j < |names| && servers[names[j]].healthy
    ensures (forall j :: 0 <= j < |names| ==> !servers[names[j]].healthy) ==> r == names[0]
    ensures servers[r].healthy ==> forall j :: 0 <= j < |names| && servers[names[j]].healthy ==>
      servers[r].connections <= servers[names[j]].connections
    ensures servers[r].healthy ==> exists i :: 0 <= i < |names| && names[i] == r && (forall j ::
      0 <= j < i && servers[names[j]].healthy ==> servers[r].connections < servers[names[j]].connections)
  {
    LeastLoadedIsLeast(names, servers);
    match LeastLoaded(names, servers)
    case Some(i) => names[i]
    case None => names[0]
  }

  /**
   * The test's second and last rounds: with server1, 2, 3 holding 2, 1, 0 connections server3 is
   * chosen; after adding server4, removing server2 and marking server1 unhealthy, server3 and
   * server4 tie at 0 and the earlier, server3, is chosen.
   */
  lemma ScenarioLeastConnections()
    ensures LeastConnectionsChoice(["server1", "server2", "server3"],
      map["server1" := Server("server1", 2, true), "server2" := Server("server2", 1, true),
          "server3" := Server("server3", 0, true)]) == "server3"
    ensures LeastConnectionsChoice(["server1", "server3", "server4"],
      map["server1" := Server("server1", 2, false), "server3" := Server("server3", 0, true),
          "server4" := Server("server4", 0, true)]) == "server3"
  {
    var names := ["server1", "server2", "server3"];
    var m := map["server1" := Server("server1", 2, true), "server2" := Server("server2", 1, true),
      "server3" := Server("server3", 0, true)];
    assert names[..2] == ["server1", "server2"] && names[..2][..1] == ["server1"] && names[..2][..1][..0] == [];
    assert LeastLoaded(names, m) == Some(2);
    var names' := ["server1", "server3", "server4"];
    var m' := map["server1" := Server("server1", 2, false), "server3" := Server("server3", 0, true),
      "server4" := Server("server4", 0, true)];
    assert names'[..2] == ["server1", "server3"] && names'[..2][..1] == ["server1"] && names'[..2][..1][..0] == [];
    assert LeastLoaded(names', m') == Some(1);
  }

  // ---------------------------------------------------------------------------
  // Health and connection counts

  /** The healthy servers among `names`, in list order. */
  function HealthyNames(names: seq<string>, servers: map<string, Server>): (r: seq<string>)
    requires forall j :: 0 <= j < |names| ==> names[j] in servers
    ensures forall x :: x in r <==> x in names && x in servers && servers[x].healthy
    ensures |r| <= |names|
    ensures NoDups(names) ==> NoDups(r)
  {
    if names == [] then []
    else
      var init := names[..|names| - 1];
      var last := names[|names| - 1];
      assert names == init + [last];
      assert NoDups(names) ==> last !in init && NoDups(init) by {
        if NoDups(names) {
          forall j | 0 <= j < |init| ensures init[j] != last { assert names[j] != names[|names| - 1]; }
        }
      }
      HealthyNames(init, servers) + (if servers[last].healthy then [last] else [])
  }

  /** `max(0, c - 1)`: one connection fewer, never below zero. */
  function Disconnected(c: int): (r: int)
    ensures r >= 0
    ensures c >= 1 ==> r == c - 1
    ensures c <= 1 ==> r == 0
  {
    if c - 1 > 0 then c - 1 else 0
  }

  /** A disconnection undoes a connection, for any count the balancer can reach. */
  lemma DisconnectUndoesConnect(c: int)
    requires c >= 0
    ensures Disconnected(c + 1) == c
  {
  }

  // ---------------------------------------------------------------------------
  // The balancer

  class ThreadSafeLoadBalancer {
    /** `self.servers` */
    var servers: map<string, Server>
    /** `self.servers_list` */
    var serversList: seq<string>
    /** `self.rr_next_index` */
    var rrNextIndex: int

    /**
     * The list and the dict hold the same names, the list each once; each server is stored under
     * its own name and has no negative connection count.
     */
    ghost predicate Valid()
      reads this
    {
      NoDups(serversList) &&
      (forall s :: s in serversList <==> s in servers) &&
      (forall s :: s in servers ==> servers[s].name == s && servers[s].connections >= 0)
    }

    /** `__init__`: one fresh server per name, in the given order, and the cursor at 0. */
    constructor (names: seq<string>)
      ensures serversList == names && rrNextIndex == 0
      ensures forall s :: s in servers <==> s in names
      ensures forall s :: s in servers ==> servers[s] == Server(s, 0, true)
      ensures NoDups(names) ==> Valid()
    {
      var m: map<string, Server> := map[];
      var list: seq<string> := [];
      for i := 0 to |names|
        invariant list == names[..i]
        invariant forall s :: s in m <==> s in names[..i]
        invariant forall s :: s in m ==> m[s] == Server(s, 0, true)
      {
        m := m[names[i] := Server(names[i], 0, true)];
        list := list + [names[i]];
        assert names[..i + 1] == names[..i] + [names[i]];
      }
      assert names[..|names|] == names;
      servers := m;
      serversList := list;
      rrNextIndex := 0;
    }

    /**
     * `get_server`: None with no servers, whatever the algorithm; otherwise the round-robin or
     * least-connections choice, and ValueError for any other algorithm.
     */
    method GetServer(algorithm: string) returns (r: Result<Option<string>>)
      requires Valid()
      modifies this
      ensures Valid() && servers == old(servers) && serversList == old(serversList)
      ensures serversList == [] ==> r == Ok(None) && rrNextIndex == old(rrNextIndex)
      ensures serversList != [] && algorithm == "round_robin" ==>
        var step := RoundRobinStep(|serversList|, old(rrNextIndex));
        r == Ok(Some(serversList[step.0])) && rrNextIndex == step.1
      ensures serversList != [] && algorithm == "least_connections" ==>
        r == Ok(Some(LeastConnectionsChoice(serversList, servers))) && rrNextIndex == old(rrNextIndex)
      ensures serversList != [] && algorithm != "round_robin" && algorithm != "least_connections" ==>
        r == Err(ValueError) && rrNextIndex == old(rrNextIndex)
    {
      if serversList == [] {
        return Ok(None);
      }
      if algorithm == "round_robin" {
        var s := RoundRobin();
        return Ok(Some(s));
      } else if algorithm == "least_connections" {
        var s := LeastConnections();
        return Ok(Some(s));
      } else {
        return Err(ValueError);
      }
    }

    /** `_get_rr_server`: serve the cursor's server and advance the cursor. */
    method RoundRobin() returns (s: string)
      requires |serversList| > 0
      modifies this
      ensures servers == old(servers) && serversList == old(serversList)
      ensures var step := RoundRobinStep(|serversList|, old(rrNextIndex));
        s == serversList[step.0] && rrNextIndex == step.1
    {
      var serverIdx := rrNextIndex % |serversList|;
      s := serversList[serverIdx];
      rrNextIndex := (serverIdx + 1) % |serversList|;
    }

    /**
     * `_get_lc_server`: scan the list keeping the healthy server with the fewest connections seen
     * so far (None stands for the initial infinite minimum), then fall back to the first server.
     */
    method LeastConnections() returns (s: string)
      requires Valid() && |serversList| > 0
      ensures s == LeastConnectionsChoice(serversList, servers)
    {
      var minConnections: Option<int> := None;
      var selectedServer: Option<string> := None;
      for i := 0 to |serversList|
        invariant var best := LeastLoaded(serversList[..i], servers);
          (best.None? ==> minConnections.None? && selectedServer.None?) &&
          (best.Some? ==>
            selectedServer == Some(serversList[best.value]) &&
            minConnections == Some(servers[serversList[best.value]].connections))
      {
        assert serversList[..i + 1][..i] == serversList[..i];
        var serverName := serversList[i];
        var server := servers[serverName];
        if server.healthy {
          if minConnections.None? || server.connections < minConnections.value {
            minConnections := Some(server.connections);
            selectedServer := Some(serverName);
          }
        }
      }
      assert serversList[..|serversList|] == serversList;
      if selectedServer.None? && |serversList| > 0 {
        selectedServer := Some(serversList[0]);
      }
      s := selectedServer.value;
    }

    /** `add_server`: a new name gets a fresh server at the end of the list; a known name changes nothing. */
    method AddServer(name: string)
      requires Valid()
      modifies this
      ensures Valid() && rrNextIndex == old(rrNextIndex)
      ensures name in old(servers) ==> servers == old(servers) && serversList == old(serversList)
      ensures name !in old(servers) ==>
        servers == old(servers)[name := Server(name, 0, true)] && serversList == old(serversList) + [name]
    {
      if name !in servers {
        servers := servers[name := Server(name, 0, true)];
        serversList := serversList + [name];
      }
    }

    /** `remove_server`: True and the name gone from dict and list exactly when it was known. */
    method RemoveServer(name: string) returns (removed: bool)
      requires Valid()
      modifies this
      ensures Valid() && rrNextIndex == old(rrNextIndex)
      ensures removed == (name in old(servers))
      ensures removed ==> servers == old(servers) - {name} && serversList == RemoveFirst(old(serversList), name)
      ensures !removed ==> servers == old(servers) && serversList == old(serversList)
    {
      if name in servers {
        servers := servers - {name};
        serversList := RemoveFirst(serversList, name);
        return true;
      }
      return false;
    }

    /** `record_connection`: one more connection for a known server; an unknown name is ignored. */
    method RecordConnection(name: string)
      requires Valid()
      modifies this
      ensures Valid() && serversList == old(serversList) && rrNextIndex == old(rrNextIndex)
      ensures name in old(servers) ==>
        servers == old(servers)[name := old(servers)[name].(connections := old(servers)[name].connections + 1)]
      ensures name !in old(servers) ==> servers == old(servers)
    {
      if name in servers {
        servers := servers[name := servers[name].(connections := servers[name].connections + 1)];
      }
    }

    /** `record_disconnection`: one connection fewer for a known server, never below zero. */
    method RecordDisconnection(name: string)
      requires Valid()
      modifies this
      ensures Valid() && serversList == old(serversList) && rrNextIndex == old(rrNextIndex)
      ensures name in old(servers) ==>
        servers == old(servers)[name := old(servers)[name].(connections := Disconnected(old(servers)[name].connections))]
      ensures name !in old(servers) ==> servers == old(servers)
    {
      if name in servers {
        servers := servers[name := servers[name].(connections := Disconnected(servers[name].connections))];
      }
    }

    /** `get_server_stats`: every known name with its connection count. */
    method GetServerStats() returns (stats: map<string, int>)
      requires Valid()
      ensures forall s :: s in stats <==> s in servers
      ensures forall s :: s in stats ==> stats[s] == servers[s].connections
    {
      stats := map[];
      for i := 0 to |serversList|
        invariant forall s :: s in stats <==> s in serversList[..i]
        invariant forall s :: s in stats ==> s in servers && stats[s] == servers[s].connections
      {
        assert serversList[..i + 1] == serversList[..i] + [serversList[i]];
        stats := stats[serversList[i] := servers[serversList[i]].connections];
      }
      assert serversList[..|serversList|] == serversList;
    }

    /** `set_server_healthy`: set the flag of a known server; an unknown name is ignored. */
    method SetServerHealthy(name: string, healthy: bool)
      requires Valid()
      modifies this
      ensures Valid() && serversList == old(serversList) && rrNextIndex == old(rrNextIndex)
      ensures name in old(servers) ==> servers == old(servers)[name := old(servers)[name].(healthy := healthy)]
      ensures name !in old(servers) ==> servers == old(servers)
    {
      if name in servers {
        servers := servers[name := servers[name].(healthy := healthy)];
      }
    }

    /** `get_healthy_servers`: the healthy servers, in the dict's order, which is the list's. */
    method GetHealthyServers() returns (r: seq<string>)
      requires Valid()
      ensures r == HealthyNames(serversList, servers)
    {
      r := [];
      for i := 0 to |serversList|
        invariant r == HealthyNames(serversList[..i], servers)
      {
        assert serversList[..i + 1][..i] == serversList[..i];
        if servers[serversList[i]].healthy {
          r := r + [serversList[i]];
        }
      }
      assert serversList[..|serversList|] == serversList;
    }
  }
}
