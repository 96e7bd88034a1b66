/** The priority queue of `en_hizli_rota_bul`.  The source keeps a binary heap
    of tuples `(f, g, counter, station, path)` with `heapq`; only its observable
    behaviour matters here: a push adds an entry, a pop removes an entry that
    no other entry precedes in tuple order. */
module Heap {
  import opened Stations
  import opened Walks
  import opened Heuristic

  datatype Entry = Entry(f: int, g: int, counter: nat, station: nat, path: seq<nat>)

  /** Tuple order on the first three fields.  Counters are distinct, so the
      comparison never reaches the station object. */
  predicate NotAfter(a: Entry, b: Entry): (r: bool)
    ensures a.f < b.f ==> r
    ensures r ==> a.f <= b.f
  {
    a.f < b.f || (a.f == b.f && (a.g < b.g || (a.g == b.g && a.counter <= b.counter)))
  }

  /** The tuple order is a total preorder, and two entries that precede each
      other agree on `f`, `g` and the counter; with distinct counters the least
      entry is therefore unique. */
  lemma NotAfterOrder(a: Entry, b: Entry, c: Entry)
    ensures NotAfter(a, a)
    ensures NotAfter(a, b) || NotAfter(b, a)
    ensures NotAfter(a, b) && NotAfter(b, c) ==> NotAfter(a, c)
    ensures NotAfter(a, b) && NotAfter(b, a) ==> a.f == b.f && a.g == b.g && a.counter == b.counter
  {
  }

  /** The position `heapq.heappop` takes an entry from: one no other entry precedes. */
  function MinEntry(pq: seq<Entry>): (i: nat)
    requires |pq| > 0
    ensures i < |pq|
    ensures forall j :: 0 <= j < |pq| ==> NotAfter(pq[i], pq[j])
    decreases |pq|
  {
    if |pq| == 1 then 0
    else
      var m := MinEntry(pq[1..]) + 1;
      assert forall j :: 1 <= j < |pq| ==> pq[j] == pq[1..][j - 1];
      if NotAfter(pq[0], pq[m]) then 0 else m
  }

  /** The heap after popping position `i`. */
  function RemoveAt(pq: seq<Entry>, i: nat): (r: seq<Entry>)
    requires i < |pq|
    ensures |r| == |pq| - 1
    ensures forall j :: 0 <= j < |r| ==> r[j] == pq[if j < i then j else j + 1]
  {
    pq[..i] + pq[i + 1..]
  }

  /** The stations that have an entry in the heap. */
  function HeapStations(pq: seq<Entry>): (r: set<nat>)
    ensures forall j :: 0 <= j < |pq| ==> pq[j].station in r
    ensures forall u :: u in r ==> exists j :: 0 <= j < |pq| && pq[j].station == u
  {
    set j | 0 <= j < |pq| :: pq[j].station
  }

  /** An entry is honest when its path is a route from `s` to its station whose
      travel times add up to its `g`. */
  ghost predicate Honest(g: Arena, s: nat, e: Entry) {
    && |e.path| > 0
    && e.path[0] == s
    && e.path[|e.path| - 1] == e.station
    && e.station < |g|
    && CostsAlong(g, e.path, e.g)
  }

  ghost predicate AllHonest(g: Arena, s: nat, pq: seq<Entry>) {
    forall j :: 0 <= j < |pq| ==> Honest(g, s, pq[j])
  }

  /** Popping keeps every other entry, and every entry honest. */
  lemma RemoveKeeps(g: Arena, s: nat, pq: seq<Entry>, i: nat)
    requires i < |pq| && AllHonest(g, s, pq)
    ensures AllHonest(g, s, RemoveAt(pq, i))
    ensures HeapStations(pq) <= HeapStations(RemoveAt(pq, i)) + {pq[i].station}
  {
    var r := RemoveAt(pq, i);
    forall u | u in HeapStations(pq) && u != pq[i].station ensures u in HeapStations(r) {
      var j :| 0 <= j < |pq| && pq[j].station == u;
      if j < i {
        assert r[j] == pq[j];
      } else {
        assert r[j - 1] == pq[j];
      }
    }
  }

  /** Pushing an entry adds its station to those in the heap. */
  lemma StationsAppend(pq: seq<Entry>, x: Entry)
    ensures HeapStations(pq + [x]) == HeapStations(pq) + {x.station}
  {
    var r := pq + [x];
    forall u | u in HeapStations(r) ensures u in HeapStations(pq) + {x.station} {
      var j :| 0 <= j < |r| && r[j].station == u;
      if j < |pq| {
        assert pq[j].station == u;
      }
    }
    assert r[|pq|].station == x.station;
    forall u | u in HeapStations(pq) ensures u in HeapStations(r) {
      var j :| 0 <= j < |pq| && pq[j].station == u;
      assert r[j].station == u;
    }
  }

  /** An entry pushed while expanding `e`: it carries counter `counter`, its
      station is a neighbour of `e`'s through an adjacency entry whose time
      is the difference of their `g`, and its route extends `e`'s by its station. */
  ghost predicate Pushed(g: Arena, e: Entry, x: Entry, counter: nat) {
    && x.counter == counter
    && e.station < |g| && x.station < |g| && Link(x.station, x.g - e.g) in g[e.station].neighbours
    && x.path == e.path + [x.station]
  }

  /** The entries of `pq` from position `n` on have `f = g + Estimate` towards `t`. */
  ghost predicate Estimated(g: Arena, t: nat, pq: seq<Entry>, n: nat) {
    forall i :: n <= i < |pq| ==>
      && pq[i].station < |g| && t < |g| && WellFormedKey(g[pq[i].station].key) && WellFormedKey(g[t].key)
      && pq[i].f == pq[i].g + Estimate(g[pq[i].station], g[t])
  }

  lemma EstimatedAppend(g: Arena, t: nat, pq: seq<Entry>, n: nat, x: Entry)
    requires Estimated(g, t, pq, n) && n <= |pq|
    requires x.station < |g| && t < |g| && WellFormedKey(g[x.station].key) && WellFormedKey(g[t].key)
    requires x.f == x.g + Estimate(g[x.station], g[t])
    ensures Estimated(g, t, pq + [x], n)
  {
    var r := pq + [x];
    forall i | n <= i < |r|
      ensures r[i].station < |g| && WellFormedKey(g[r[i].station].key)
              && r[i].f == r[i].g + Estimate(g[r[i].station], g[t])
    {
      if i < |pq| {
        assert r[i] == pq[i];
      }
    }
  }

  /** The best-known costs after the first `k` neighbours of the popped entry
      `e`: each of those neighbours has one, none went up, and every newly
      costed record has an entry in `pq`. */
  ghost predicate CostsRelaxed(g: Arena, e: Entry, gCost0: map<nat, int>, k: nat, gCost: map<nat, int>, pq: seq<Entry>) {
    && e.station < |g| && k <= |g[e.station].neighbours|
    && gCost0.Keys <= gCost.Keys <= gCost0.Keys + HeapStations(pq)
    && (forall u :: u in gCost0 ==> gCost[u] <= gCost0[u])
    && (forall j :: 0 <= j < k ==> g[e.station].neighbours[j].to in gCost)
  }

  /** The heap grew from `pq0` only by entries pushed while expanding `e`,
      with consecutive counters after `index0`. */
  ghost predicate HeapGrown(g: Arena, e: Entry, index0: nat, pq0: seq<Entry>, index: nat, pq: seq<Entry>) {
    && |pq0| <= |pq| && pq[..|pq0|] == pq0 && HeapStations(pq0) <= HeapStations(pq)
    && index == index0 + (|pq| - |pq0|)
    && (forall i :: |pq0| <= i < |pq| ==> Pushed(g, e, pq[i], index0 + 1 + (i - |pq0|)))
  }

  /** The state of the inner loop after the first `k` neighbours of `e`. */
  ghost predicate Relaxing(g: Arena, e: Entry, gCost0: map<nat, int>, index0: nat, pq0: seq<Entry>,
                           k: nat, gCost: map<nat, int>, index: nat, pq: seq<Entry>) {
    InRange(g) && CostsRelaxed(g, e, gCost0, k, gCost, pq) && HeapGrown(g, e, index0, pq0, index, pq)
  }

  lemma CostsStep(g: Arena, e: Entry, gCost0: map<nat, int>, k: nat, gCost: map<nat, int>, pq: seq<Entry>,
                  next: nat, newG: int, x: Entry)
    requires CostsRelaxed(g, e, gCost0, k, gCost, pq) && k < |g[e.station].neighbours|
    requires next == g[e.station].neighbours[k].to
    requires next !in gCost || newG < gCost[next]
    requires x.station == next
    ensures CostsRelaxed(g, e, gCost0, k + 1, gCost[next := newG], pq + [x])
  {
    StationsAppend(pq, x);
  }

  lemma HeapStep(g: Arena, e: Entry, index0: nat, pq0: seq<Entry>, index: nat, pq: seq<Entry>, k: nat, x: Entry)
    requires InRange(g) && HeapGrown(g, e, index0, pq0, index, pq)
    requires e.station < |g| && k < |g[e.station].neighbours|
    requires x.station == g[e.station].neighbours[k].to && x.g == e.g + g[e.station].neighbours[k].time
    requires x.counter == index + 1 && x.path == e.path + [x.station]
    ensures HeapGrown(g, e, index0, pq0, index + 1, pq + [x])
  {
    var pq' := pq + [x];
    StationsAppend(pq, x);
    assert g[e.station].neighbours[k] == Link(x.station, x.g - e.g);
    assert pq'[..|pq0|] == pq0 by {
      assert pq'[..|pq|] == pq;
    }
  }

  /** Recording a cheaper (or first) cost `newG` for the `k`-th neighbour and
      pushing its entry `x` keeps the relaxation state. */
  lemma RelaxStep(g: Arena, e: Entry, gCost0: map<nat, int>, index0: nat, pq0: seq<Entry>,
                  k: nat, gCost: map<nat, int>, index: nat, pq: seq<Entry>, next: nat, newG: int, x: Entry)
    requires Relaxing(g, e, gCost0, index0, pq0, k, gCost, index, pq)
    requires k < |g[e.station].neighbours|
    requires next == g[e.station].neighbours[k].to && newG == e.g + g[e.station].neighbours[k].time
    requires next !in gCost || newG < gCost[next]
    requires x.station == next && x.g == newG && x.counter == index + 1 && x.path == e.path + [next]
    ensures Relaxing(g, e, gCost0, index0, pq0, k + 1, gCost[next := newG], index + 1, pq + [x])
  {
    CostsStep(g, e, gCost0, k, gCost, pq, next, newG, x);
    HeapStep(g, e, index0, pq0, index, pq, k, x);
  }

  /** Passing over a neighbour whose route is no cheaper keeps the relaxation state. */
  lemma RelaxSkip(g: Arena, e: Entry, gCost0: map<nat, int>, index0: nat, pq0: seq<Entry>,
                  k: nat, gCost: map<nat, int>, index: nat, pq: seq<Entry>)
    requires Relaxing(g, e, gCost0, index0, pq0, k, gCost, index, pq)
    requires k < |g[e.station].neighbours|
    requires var l := g[e.station].neighbours[k];
      l.to in gCost && e.g + l.time >= gCost[l.to]
    ensures Relaxing(g, e, gCost0, index0, pq0, k + 1, gCost, index, pq)
  {
  }

  /** Entries pushed while expanding an honest entry are honest. */
  lemma PushedHonest(g: Arena, s: nat, e: Entry, index0: nat, pq0: seq<Entry>, pq: seq<Entry>)
    requires Honest(g, s, e) && AllHonest(g, s, pq0)
    requires |pq0| <= |pq| && pq[..|pq0|] == pq0
    requires forall i :: |pq0| <= i < |pq| ==> Pushed(g, e, pq[i], index0 + 1 + (i - |pq0|))
    ensures AllHonest(g, s, pq)
  {
    forall i | 0 <= i < |pq| ensures Honest(g, s, pq[i]) {
      if i < |pq0| {
        assert pq[i] == pq[..|pq0|][i];
      } else {
        var x := pq[i];
        assert Pushed(g, e, x, index0 + 1 + (i - |pq0|));
        var k :| 0 <= k < |g[e.station].neighbours| && g[e.station].neighbours[k] == Link(x.station, x.g - e.g);
        CostExtend(g, e.path, e.g, k);
      }
    }
  }

  /** The invariant of the search loop: every record with a best-known cost
      is closed or has an entry in the heap, every record listed by a closed
      record has a best-known cost, the goal is not closed, and every entry is
      honest. */
  ghost predicate Searching(g: Arena, s: nat, t: nat, closed: set<nat>, gCost: map<nat, int>, pq: seq<Entry>) {
    && s < |g| && t < |g| && s in gCost && t !in closed
    && (forall u :: u in closed ==> u < |g|)
    && gCost.Keys <= closed + HeapStations(pq)
    && Closure(g, closed, gCost.Keys)
    && AllHonest(g, s, pq)
  }

  /** Popping an entry whose record is already closed keeps the invariant. */
  lemma SkipKeeps(g: Arena, s: nat, t: nat, closed: set<nat>, gCost: map<nat, int>, pq: seq<Entry>, i: nat)
    requires Searching(g, s, t, closed, gCost, pq) && i < |pq| && pq[i].station in closed
    ensures Searching(g, s, t, closed, gCost, RemoveAt(pq, i))
  {
    RemoveKeeps(g, s, pq, i);
  }

  /** Popping an entry for a record other than the goal, closing that record
      and giving each of its neighbours a best-known cost and an entry keeps
      the invariant. */
  lemma CloseKeeps(g: Arena, s: nat, t: nat, closed: set<nat>, gCost: map<nat, int>, pq: seq<Entry>, i: nat,
                   gCost': map<nat, int>, pq': seq<Entry>)
    requires Searching(g, s, t, closed, gCost, pq) && i < |pq|
    requires pq[i].station != t && pq[i].station !in closed
    requires gCost.Keys <= gCost'.Keys <= gCost.Keys + HeapStations(pq')
    requires forall j :: 0 <= j < |g[pq[i].station].neighbours| ==> g[pq[i].station].neighbours[j].to in gCost'
    requires HeapStations(RemoveAt(pq, i)) <= HeapStations(pq')
    requires AllHonest(g, s, pq')
    ensures Searching(g, s, t, closed + {pq[i].station}, gCost', pq')
  {
    RemoveKeeps(g, s, pq, i);
  }

  /** The records listed in `links`. */
  function Targets(links: seq<Link>): (r: set<nat>)
    ensures forall j :: 0 <= j < |links| ==> links[j].to in r
    ensures forall v :: v in r ==> exists j :: 0 <= j < |links| && links[j].to == v
  {
    set j | 0 <= j < |links| :: links[j].to
  }

  /** The test of `en_hizli_rota_bul` for one adjacency entry `l` of a record
      reached in time `base`: the neighbour has no best-known time yet, or the
      route through this entry is strictly faster. */
  predicate Improves(costs: map<nat, int>, base: int, l: Link) {
    l.to !in costs || base + l.time < costs[l.to]
  }

  /** The best-known times after the adjacency entries `links` of a record
      reached in time `base` are tried in order. */
  function RelaxedCosts(costs: map<nat, int>, base: int, links: seq<Link>): (r: map<nat, int>)
    ensures costs.Keys <= r.Keys
    decreases |links|
  {
    if |links| == 0 then costs
    else
      var m := RelaxedCosts(costs, base, links[..|links| - 1]);
      var l := links[|links| - 1];
      if Improves(m, base, l) then m[l.to := base + l.time] else m
  }

  /** The `(station, g)` pairs pushed while `links` are tried in order: one per
      entry that passes the test, in adjacency order. */
  function Improvements(costs: map<nat, int>, base: int, links: seq<Link>): (r: seq<(nat, int)>)
    ensures |r| <= |links|
    decreases |links|
  {
    if |links| == 0 then []
    else
      var m := RelaxedCosts(costs, base, links[..|links| - 1]);
      var l := links[|links| - 1];
      Improvements(costs, base, links[..|links| - 1]) + (if Improves(m, base, l) then [(l.to, base + l.time)] else [])
  }

  /** The test passes exactly when recording the candidate time for the
      entry would change the best-known times. */
  lemma ImprovesExactlyWhenChanged(costs: map<nat, int>, base: int, l: Link)
    ensures Improves(costs, base, l) <==> RelaxedCosts(costs, base, [l]) != costs
  {
    assert [l][..0] == [] && [l][0] == l;
    assert RelaxedCosts(costs, base, [l][..0]) == costs;
    var r := RelaxedCosts(costs, base, [l]);
    if Improves(costs, base, l) {
      assert l.to in r && r[l.to] == base + l.time;
      assert l.to !in costs || r[l.to] != costs[l.to];
    }
  }

  /** The `(station, g)` pair of each entry. */
  function Pairs(pq: seq<Entry>): (r: seq<(nat, int)>)
    ensures |r| == |pq| && forall i :: 0 <= i < |pq| ==> r[i] == (pq[i].station, pq[i].g)
  {
    seq(|pq|, i requires 0 <= i < |pq| => (pq[i].station, pq[i].g))
  }

  /** Relaxation costs exactly the records already costed and the listed ones;
      a record that is not listed keeps its time. */
  lemma {:induction false} RelaxedKeys(costs: map<nat, int>, base: int, links: seq<Link>)
    ensures forall v :: v in RelaxedCosts(costs, base, links) <==> v in costs || v in Targets(links)
    ensures forall v :: v in costs && v !in Targets(links) ==> RelaxedCosts(costs, base, links)[v] == costs[v]
    decreases |links|
  {
    if |links| > 0 {
      var p := links[..|links| - 1];
      RelaxedKeys(costs, base, p);
      assert Targets(links) == Targets(p) + {links[|links| - 1].to} by {
        forall v | v in Targets(links) ensures v in Targets(p) + {links[|links| - 1].to} {
          var j :| 0 <= j < |links| && links[j].to == v;
          if j < |links| - 1 {
            assert p[j] == links[j];
          }
        }
        forall v | v in Targets(p) ensures v in Targets(links) {
          var j :| 0 <= j < |p| && p[j].to == v;
          assert links[j] == p[j];
        }
      }
    }
  }

  /** No time goes up, and every listed record ends at most at the time of the
      route through each of its entries. */
  lemma {:induction false} RelaxedBelow(costs: map<nat, int>, base: int, links: seq<Link>)
    ensures forall v :: v in costs ==> v in RelaxedCosts(costs, base, links) && RelaxedCosts(costs, base, links)[v] <= costs[v]
    ensures forall j :: 0 <= j < |links| ==>
      links[j].to in RelaxedCosts(costs, base, links) && RelaxedCosts(costs, base, links)[links[j].to] <= base + links[j].time
    decreases |links|
  {
    if |links| > 0 {
      var p := links[..|links| - 1];
      RelaxedBelow(costs, base, p);
      forall j | 0 <= j < |links| - 1 ensures links[j] == p[j] {
      }
    }
  }

  /** Every time after relaxation is either the record's earlier time or the
      time of the route through one of the listed entries: with the previous
      lemma, each listed record ends at the least of those. */
  lemma {:induction false} RelaxedAttained(costs: map<nat, int>, base: int, links: seq<Link>)
    ensures forall v :: v in RelaxedCosts(costs, base, links) ==>
      (v in costs && RelaxedCosts(costs, base, links)[v] == costs[v])
      || exists j :: 0 <= j < |links| && links[j].to == v && RelaxedCosts(costs, base, links)[v] == base + links[j].time
    decreases |links|
  {
    if |links| > 0 {
      var p := links[..|links| - 1];
      RelaxedAttained(costs, base, p);
      forall j | 0 <= j < |links| - 1 ensures links[j] == p[j] {
      }
    }
  }

  /** Each pushed pair is the route through one listed entry, and every record
      whose time changed had its final time pushed. */
  lemma {:induction false} ImprovementsPushed(costs: map<nat, int>, base: int, links: seq<Link>)
    ensures |Improvements(costs, base, links)| <= |links|
    ensures forall i :: 0 <= i < |Improvements(costs, base, links)| ==>
      exists j :: 0 <= j < |links| && Improvements(costs, base, links)[i] == (links[j].to, base + links[j].time)
    ensures forall v :: v in RelaxedCosts(costs, base, links) && !(v in costs && RelaxedCosts(costs, base, links)[v] == costs[v]) ==>
      exists i :: 0 <= i < |Improvements(costs, base, links)| && Improvements(costs, base, links)[i] == (v, RelaxedCosts(costs, base, links)[v])
    decreases |links|
  {
    if |links| > 0 {
      var p := links[..|links| - 1];
      ImprovementsPushed(costs, base, p);
      var imp, imp' := Improvements(costs, base, p), Improvements(costs, base, links);
      assert imp'[..|imp|] == imp;
      forall j | 0 <= j < |links| - 1 ensures links[j] == p[j] {
      }
      forall i | 0 <= i < |imp| ensures imp'[i] == imp[i] {
        assert imp'[..|imp|][i] == imp[i];
      }
      var m, r, l := RelaxedCosts(costs, base, p), RelaxedCosts(costs, base, links), links[|links| - 1];
      forall v | v in r && !(v in costs && r[v] == costs[v])
        ensures exists i :: 0 <= i < |imp'| && imp'[i] == (v, r[v])
      {
        if Improves(m, base, l) && v == l.to {
          assert imp'[|imp|] == (v, r[v]);
        } else {
          assert v in m && r[v] == m[v];
          var i :| 0 <= i < |imp| && imp[i] == (v, m[v]);
          assert imp'[i] == (v, r[v]);
        }
      }
    }
  }

  /** The inner loop after the first `k` of `links`: the best-known times and
      the pairs pushed since `pq0` are those of trying `links[..k]` in order. */
  ghost predicate Traced(costs0: map<nat, int>, base: int, links: seq<Link>, k: nat,
                         costs: map<nat, int>, pq0: seq<Entry>, pq: seq<Entry>) {
    && k <= |links| && |pq0| <= |pq|
    && costs == RelaxedCosts(costs0, base, links[..k])
    && Pairs(pq[|pq0|..]) == Improvements(costs0, base, links[..k])
  }

  lemma TraceStart(costs0: map<nat, int>, base: int, links: seq<Link>, pq0: seq<Entry>)
    ensures Traced(costs0, base, links, 0, costs0, pq0, pq0)
  {
    assert links[..0] == [] && pq0[|pq0|..] == [];
  }

  /** One step of the inner loop when the entry passes the test. */
  lemma TraceImprove(costs0: map<nat, int>, base: int, links: seq<Link>, k: nat,
                     costs: map<nat, int>, pq0: seq<Entry>, pq: seq<Entry>, x: Entry)
    requires Traced(costs0, base, links, k, costs, pq0, pq) && k < |links|
    requires Improves(costs, base, links[k])
    requires x.station == links[k].to && x.g == base + links[k].time
    ensures Traced(costs0, base, links, k + 1, costs[x.station := x.g], pq0, pq + [x])
  {
    assert links[..k + 1][..k] == links[..k];
    assert (pq + [x])[|pq0|..] == pq[|pq0|..] + [x];
  }

  /** One step of the inner loop when the entry fails the test. */
  lemma TraceSkip(costs0: map<nat, int>, base: int, links: seq<Link>, k: nat,
                  costs: map<nat, int>, pq0: seq<Entry>, pq: seq<Entry>)
    requires Traced(costs0, base, links, k, costs, pq0, pq) && k < |links|
    requires !Improves(costs, base, links[k])
    ensures Traced(costs0, base, links, k + 1, costs, pq0, pq)
  {
    assert links[..k + 1][..k] == links[..k];
  }

  /** The whole state of the inner loop of the search after the first `k`
      neighbours of `e`: the relaxation state, the estimates of the pushed
      entries and the trace of the tests made so far. */
  ghost predicate Relaxation(g: Arena, t: nat, e: Entry, gCost0: map<nat, int>, index0: nat, pq0: seq<Entry>,
                             k: nat, gCost: map<nat, int>, index: nat, pq: seq<Entry>) {
    && Relaxing(g, e, gCost0, index0, pq0, k, gCost, index, pq)
    && Estimated(g, t, pq, |pq0|)
    && Traced(gCost0, e.g, g[e.station].neighbours, k, gCost, pq0, pq)
  }

  /** Trying the `k`-th neighbour when its route is the first or a cheaper one:
      its cost is lowered and the entry `x` for it is pushed. */
  lemma RelaxationImprove(g: Arena, t: nat, e: Entry, gCost0: map<nat, int>, index0: nat, pq0: seq<Entry>,
                          k: nat, gCost: map<nat, int>, index: nat, pq: seq<Entry>, x: Entry,
                          gCost': map<nat, int>, index': nat, pq': seq<Entry>)
    requires Relaxation(g, t, e, gCost0, index0, pq0, k, gCost, index, pq)
    requires k < |g[e.station].neighbours| && t < |g| && forall i :: 0 <= i < |g| ==> WellFormedKey(g[i].key)
    requires var l := g[e.station].neighbours[k];
      && Improves(gCost, e.g, l)
      && x == Entry(e.g + l.time + Estimate(g[l.to], g[t]), e.g + l.time, index + 1, l.to, e.path + [l.to])
    requires gCost' == gCost[x.station := x.g] && index' == index + 1 && pq' == pq + [x]
    ensures Relaxation(g, t, e, gCost0, index0, pq0, k + 1, gCost', index', pq')
  {
    var l := g[e.station].neighbours[k];
    assert l in g[e.station].neighbours;
    RelaxStep(g, e, gCost0, index0, pq0, k, gCost, index, pq, x.station, x.g, x);
    EstimatedAppend(g, t, pq, |pq0|, x);
    TraceImprove(gCost0, e.g, g[e.station].neighbours, k, gCost, pq0, pq, x);
  }

  /** Trying the `k`-th neighbour when its route is no cheaper changes nothing. */
  lemma RelaxationSkip(g: Arena, t: nat, e: Entry, gCost0: map<nat, int>, index0: nat, pq0: seq<Entry>,
                       k: nat, gCost: map<nat, int>, index: nat, pq: seq<Entry>)
    requires Relaxation(g, t, e, gCost0, index0, pq0, k, gCost, index, pq)
    requires k < |g[e.station].neighbours| && !Improves(gCost, e.g, g[e.station].neighbours[k])
    ensures Relaxation(g, t, e, gCost0, index0, pq0, k + 1, gCost, index, pq)
  {
    RelaxSkip(g, e, gCost0, index0, pq0, k, gCost, index, pq);
    TraceSkip(gCost0, e.g, g[e.station].neighbours, k, gCost, pq0, pq);
  }

  /** At the end of the loop the trace covers every entry. */
  lemma TraceEnd(costs0: map<nat, int>, base: int, links: seq<Link>, costs: map<nat, int>, pq0: seq<Entry>, pq: seq<Entry>)
    requires Traced(costs0, base, links, |links|, costs, pq0, pq)
    ensures costs == RelaxedCosts(costs0, base, links)
    ensures Pairs(pq[|pq0|..]) == Improvements(costs0, base, links)
  {
    assert links[..|links|] == links;
  }
}
