/** `MetroAgi`: the network the caller builds station by station and then
    queries for the route with the fewest hops and the fastest route. */
module Metro {
  import opened Stations
  import opened Walks
  import opened Heuristic
  import opened BreadthFirstQueue
  import opened Heap

  /** `hatlar` is a `defaultdict(list)`: a line never seen reads as the empty list. */
  function LineMembers(lines: map<string, seq<nat>>, line: string): (r: seq<nat>)
    ensures line !in lines ==> r == []
    ensures line in lines ==> r == lines[line]
  {
    if line in lines then lines[line] else []
  }

  class Network {
    /** Every station record ever created, in creation order; indices are identities. */
    var stations: Arena
    /** `istasyonlar`: each key to the record currently registered under it. */
    var registry: map<string, nat>
    /** `hatlar`: each line to the records added under it, in insertion order. */
    var lines: map<string, seq<nat>>

    /** Every adjacency entry names a record, every key names a record with
        that key, and every line lists records of that line.  Undirectedness
        (`Symmetric`) is kept by `AddStation` and `AddConnection` but not by a
        lone `AddNeighbour`, so it is stated separately. */
    ghost predicate Valid()
      reads this
    {
      && InRange(stations)
      && (forall key :: key in registry ==> registry[key] < |stations| && stations[registry[key]].key == key)
      && (forall line, i :: line in lines && 0 <= i < |lines[line]| ==>
            lines[line][i] < |stations| && stations[lines[line][i]].line == line)
    }

    constructor ()
      ensures Valid()
      ensures stations == [] && registry == map[] && lines == map[]
    {
      stations, registry, lines := [], map[], map[];
    }

    /** `komsu_ekle` on the record at index `i`. */
    method AddNeighbour(i: nat, l: Link)
      requires Valid() && i < |stations| && l.to < |stations|
      modifies this
      ensures Valid()
      ensures stations == AppendLink(old(stations), i, l)
      ensures registry == old(registry) && lines == old(lines)
    {
      stations := AppendLink(stations, i, l);
    }

    /** `Istasyon(idx, ad, hat)`: a fresh record with no neighbours.  It is not
        registered under its key nor listed under its line, but it can be
        linked with `AddNeighbour` and then reached by both searches. */
    method NewStation(key: string, name: string, line: string) returns (idx: nat)
      requires Valid()
      modifies this
      ensures Valid()
      ensures Symmetric(old(stations)) ==> Symmetric(stations)
      ensures idx == |old(stations)| && stations == old(stations) + [Station(key, name, line, [])]
      ensures registry == old(registry) && lines == old(lines)
    {
      idx := |stations|;
      if Symmetric(stations) {
        AppendStationKeepsSymmetric(stations, Station(key, name, line, []));
      }
      stations := stations + [Station(key, name, line, [])];
    }

    /** `istasyon_ekle`.  Its guard tests the builtin `id` rather than the key;
        `id` is never a key, so the guard always holds and a fresh record is created
        even for a key already present, the key is re-pointed at it and the line
        list grows; neighbours of the earlier record keep pointing at that record. */
    method AddStation(key: string, name: string, line: string)
      requires Valid()
      modifies this
      ensures Valid()
      ensures Symmetric(old(stations)) ==> Symmetric(stations)
      ensures stations == old(stations) + [Station(key, name, line, [])]
      ensures registry == old(registry)[key := |old(stations)|]
      ensures lines == old(lines)[line := LineMembers(old(lines), line) + [|old(stations)|]]
      ensures forall other :: other != line ==> LineMembers(lines, other) == LineMembers(old(lines), other)
    {
      var idx := NewStation(key, name, line);
      registry := registry[key := idx];
      lines := lines[line := LineMembers(lines, line) + [idx]];
    }

    /** `baglanti_ekle`.  Both keys are looked up before anything changes; the
        first one missing is reported (the source raises a lookup error for it). */
    method AddConnection(a: string, b: string, time: int) returns (missing: Option<string>)
      requires Valid()
      modifies this
      ensures Valid()
      ensures Symmetric(old(stations)) ==> Symmetric(stations)
      ensures a !in old(registry) ==> missing == Some(a)
      ensures a in old(registry) && b !in old(registry) ==> missing == Some(b)
      ensures missing.Some? ==> stations == old(stations)
      ensures missing.None? <==> a in old(registry) && b in old(registry)
      ensures missing.None? ==> stations == Connect(old(stations), old(registry)[a], old(registry)[b], time)
      ensures registry == old(registry) && lines == old(lines)
    {
      if a !in registry {
        return Some(a);
      }
      if b !in registry {
        return Some(b);
      }
      var i, j := registry[a], registry[b];
      if Symmetric(stations) {
        ConnectKeepsSymmetric(stations, i, j, time);
      }
      AddNeighbour(i, Link(j, time));
      AddNeighbour(j, Link(i, time));
      missing := None;
    }

    /** `en_az_aktarma_bul`: breadth-first search from the start record.  A
        record is marked visited when it is queued, and the path of the first
        queue entry for the goal is returned. */
    method FewestHops(startKey: string, goalKey: string) returns (route: Option<seq<nat>>)
      requires Valid()
      ensures startKey !in registry || goalKey !in registry ==> route == None
      ensures startKey in registry && goalKey in registry ==>
        var s, t := registry[startKey], registry[goalKey];
        && (route.Some? ==> Shortest(stations, route.value, s, t) && NoRepeats(route.value))
        && (route.None? <==> !Reachable(stations, s, t))
        && (s == t ==> route == Some([s]))
    {
      if startKey !in registry || goalKey !in registry {
        return None;
      }
      var g := stations;
      var s, t := registry[startKey], registry[goalKey];
      var visited := {s};
      var queue: seq<Pending> := [(s, [s])];
      ghost var expanded: set<nat> := {};
      ghost var level: nat := 0;
      FrontierInit(g, s, t);
      while |queue| > 0
        invariant Frontier(g, s, t, expanded, visited, queue, level)
        decreases Indices(|g|) - visited, |queue|
      {
        PopStep(g, s, t, expanded, visited, queue, level);
        var cur, path := queue[0].0, queue[0].1;
        queue := queue[1..];
        level := |path| - 1;
        if cur == t {
          if s == t {
            ShortestToSelf(g, path, s);
          }
          return Some(path);
        }
        ghost var visited0, queue0 := visited, queue;
        visited, queue := EnqueueNeighbours(g, s, cur, path, visited, queue, expanded, level);
        ExpandedStep(g, s, t, expanded, cur, path, level, visited0, queue0, visited, queue);
        if visited != visited0 {
          UnmarkedShrink(|g|, visited0, visited);
        }
        expanded := expanded + {cur};
      }
      ClosedSetTraps(g, visited, s, t);
      return None;
    }

    /** `en_hizli_rota_bul`: best-first search over a heap ordered by
        `f = g + Estimate`, with a closed set and the best-known `g` per record.
        The goal test comes before the closed-set test. */
    method FastestRoute(startKey: string, goalKey: string) returns (result: Option<(seq<nat>, int)>)
      requires Valid()
      requires forall i :: 0 <= i < |stations| ==> WellFormedKey(stations[i].key)
      ensures startKey !in registry || goalKey !in registry ==> result == None
      ensures startKey in registry && goalKey in registry ==>
        var s, t := registry[startKey], registry[goalKey];
        && (result.Some? ==> WalkBetween(stations, result.value.0, s, t)
                             && CostsAlong(stations, result.value.0, result.value.1))
        && (result.None? <==> !Reachable(stations, s, t))
        && (s == t ==> result == Some(([s], 0)))
    {
      if startKey !in registry || goalKey !in registry {
        return None;
      }
      var g := stations;
      var s, t := registry[startKey], registry[goalKey];
      var closed: set<nat> := {};
      var index: nat := 0;
      var gCost: map<nat, int> := map[s := 0];
      var fCost: map<nat, int> := map[s := Estimate(g[s], g[t])];
      var pq := [Entry(fCost[s], 0, index, s, [s])];
      assert pq[0].station == s && HeapStations(pq) == {s};
      while |pq| > 0
        invariant Searching(g, s, t, closed, gCost, pq)
        invariant s == t ==> pq == [Entry(Estimate(g[s], g[t]), 0, 0, s, [s])]
        decreases Indices(|g|) - closed, |pq|
      {
        var i := MinEntry(pq);
        var e := pq[i];
        ghost var before := pq;
        pq := RemoveAt(pq, i);
        if e.station == t {
          CostsAlongIsWalk(g, e.path, e.g);
          return Some((e.path, e.g));
        }
        if e.station in closed {
          SkipKeeps(g, s, t, closed, gCost, before, i);
          continue;
        }
        ghost var closedBefore, gCostBefore := closed, gCost;
        closed := closed + {e.station};
        gCost, fCost, index, pq := RelaxNeighbours(g, s, t, e, gCost, fCost, index, pq);
        CloseKeeps(g, s, t, closedBefore, gCostBefore, before, i, gCost, pq);
        UnmarkedShrink(|g|, closedBefore, closed);
      }
      ClosedSetTraps(g, closed, s, t);
      return None;
    }
  }

  /** The inner loop of `en_az_aktarma_bul`: each neighbour of `cur` not yet
      visited is marked visited and queued with `path` extended by it.  The
      queue stays layered, so every queued path is a fewest-hop walk. */
  method EnqueueNeighbours(g: Arena, s: nat, cur: nat, path: seq<nat>, visited: set<nat>, queue: seq<Pending>,
                           ghost expanded: set<nat>, ghost level: nat)
    returns (visited': set<nat>, queue': seq<Pending>)
    requires Expanding(g, s, expanded, cur, path, level, visited, queue, 0, visited, queue)
    ensures Expanding(g, s, expanded, cur, path, level, visited, queue, |g[cur].neighbours|, visited', queue')
    ensures forall j :: 0 <= j < |g[cur].neighbours| ==> g[cur].neighbours[j].to in visited'
    ensures forall u :: u in visited' - visited ==> Linked(g, cur, u)
    ensures forall i :: |queue| <= i < |queue'| ==> queue'[i].1 == path + [queue'[i].0]
    ensures visited' == visited + (set v | v in FreshTargets(visited, g[cur].neighbours))
    ensures |queue| <= |queue'| && queue'[..|queue|] == queue
    ensures queue'[|queue|..] == Extensions(path, FreshTargets(visited, g[cur].neighbours))
  {
    visited', queue' := visited, queue;
    var links := g[cur].neighbours;
    EnqueuedStart(path, visited, queue, links);
    for k := 0 to |links|
      invariant Expanding(g, s, expanded, cur, path, level, visited, queue, k, visited', queue')
      invariant Enqueued(path, visited, queue, links, k, visited', queue')
    {
      var next := links[k].to;
      if next !in visited' {
        ExpandStep(g, s, expanded, cur, path, level, visited, queue, k, visited', queue');
        EnqueuedFresh(path, visited, queue, links, k, visited', queue');
        visited' := visited' + {next};
        queue' := queue' + [(next, path + [next])];
      } else {
        SkipStep(g, s, expanded, cur, path, level, visited, queue, k, visited', queue');
        EnqueuedSkip(path, visited, queue, links, k, visited', queue');
      }
    }
    EnqueuedEnd(path, visited, queue, links, visited', queue');
  }

  /** One turn of the inner loop of `en_hizli_rota_bul`: the `k`-th neighbour
      of the popped entry `e` is tried; when no cost is known for it yet, or
      the route through `e` is cheaper, its best-known cost and estimate are
      set and an entry with the next counter is pushed, and otherwise nothing
      changes. */
  method TryNeighbour(g: Arena, t: nat, e: Entry, gCost0: map<nat, int>, index0: nat, pq0: seq<Entry>, k: nat,
                      gCost: map<nat, int>, fCost: map<nat, int>, index: nat, pq: seq<Entry>)
    returns (gCost': map<nat, int>, fCost': map<nat, int>, index': nat, pq': seq<Entry>)
    requires Relaxation(g, t, e, gCost0, index0, pq0, k, gCost, index, pq)
    requires k < |g[e.station].neighbours| && t < |g| && forall i :: 0 <= i < |g| ==> WellFormedKey(g[i].key)
    ensures Relaxation(g, t, e, gCost0, index0, pq0, k + 1, gCost', index', pq')
    ensures var l := g[e.station].neighbours[k];
      if Improves(gCost, e.g, l) then
        var x := Entry(e.g + l.time + Estimate(g[l.to], g[t]), e.g + l.time, index + 1, l.to, e.path + [l.to]);
        gCost' == gCost[l.to := x.g] && fCost' == fCost[l.to := x.f] && index' == index + 1 && pq' == pq + [x]
      else
        gCost' == gCost && fCost' == fCost && index' == index && pq' == pq
  {
    var next, time := g[e.station].neighbours[k].to, g[e.station].neighbours[k].time;
    var newG := e.g + time;
    if next !in gCost || newG < gCost[next] {
      var entry := Entry(newG + Estimate(g[next], g[t]), newG, index + 1, next, e.path + [next]);
      gCost', fCost', index', pq' := gCost[next := newG], fCost[next := entry.f], index + 1, pq + [entry];
      RelaxationImprove(g, t, e, gCost0, index0, pq0, k, gCost, index, pq, entry, gCost', index', pq');
    } else {
      RelaxationSkip(g, t, e, gCost0, index0, pq0, k, gCost, index, pq);
      gCost', fCost', index', pq' := gCost, fCost, index, pq;
    }
  }

  /** The inner loop of `en_hizli_rota_bul`: for each neighbour of the popped
      entry's station, when the route through it is the first one known or
      is cheaper than the best known, the best-known costs are lowered and a
      new entry with the next counter is pushed. */
  method RelaxNeighbours(g: Arena, s: nat, t: nat, e: Entry, gCost: map<nat, int>, fCost: map<nat, int>,
                         index: nat, pq: seq<Entry>)
    returns (gCost': map<nat, int>, fCost': map<nat, int>, index': nat, pq': seq<Entry>)
    requires InRange(g) && t < |g| && forall i :: 0 <= i < |g| ==> WellFormedKey(g[i].key)
    requires e.station < |g| && Honest(g, s, e) && AllHonest(g, s, pq)
    ensures gCost.Keys <= gCost'.Keys <= gCost.Keys + HeapStations(pq')
    ensures forall u :: u in gCost ==> gCost'[u] <= gCost[u]
    ensures forall j :: 0 <= j < |g[e.station].neighbours| ==> g[e.station].neighbours[j].to in gCost'
    ensures |pq| <= |pq'| && pq'[..|pq|] == pq && HeapStations(pq) <= HeapStations(pq')
    ensures index' == index + (|pq'| - |pq|)
    ensures forall i :: |pq| <= i < |pq'| ==> Pushed(g, e, pq'[i], index + 1 + (i - |pq|))
    ensures Estimated(g, t, pq', |pq|)
    ensures AllHonest(g, s, pq')
    ensures gCost' == RelaxedCosts(gCost, e.g, g[e.station].neighbours)
    ensures Pairs(pq'[|pq|..]) == Improvements(gCost, e.g, g[e.station].neighbours)
  {
    gCost', fCost', index', pq' := gCost, fCost, index, pq;
    var links := g[e.station].neighbours;
    TraceStart(gCost, e.g, links, pq);
    assert Relaxation(g, t, e, gCost, index, pq, 0, gCost', index', pq');
    for k := 0 to |links|
      invariant Relaxation(g, t, e, gCost, index, pq, k, gCost', index', pq')
    {
      gCost', fCost', index', pq' := TryNeighbour(g, t, e, gCost, index, pq, k, gCost', fCost', index', pq');
    }
    TraceEnd(gCost, e.g, links, gCost', pq, pq');
    PushedHonest(g, s, e, index, pq, pq');
  }
}
