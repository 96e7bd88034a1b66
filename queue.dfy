/** The breadth-first queue of `en_az_aktarma_bul`: a `deque` of
    `(station, path)` pairs, taken from the front and added at the back. */
module BreadthFirstQueue {
  import opened Stations
  import opened Walks

  type Pending = (nat, seq<nat>)

  function Queued(q: seq<Pending>): (r: set<nat>)
    ensures forall i :: 0 <= i < |q| ==> q[i].0 in r
    ensures forall u :: u in r ==> exists i :: 0 <= i < |q| && q[i].0 == u
  {
    set i | 0 <= i < |q| :: q[i].0
  }

  ghost predicate Within(p: seq<nat>, visited: set<nat>) {
    forall j :: 0 <= j < |p| ==> p[j] in visited
  }

  ghost predicate GoodEntry(g: Arena, s: nat, visited: set<nat>, e: Pending, level: nat) {
    && Shortest(g, e.1, s, e.0)
    && NoRepeats(e.1)
    && level + 1 <= |e.1| <= level + 2
    && Within(e.1, visited)
  }

  ghost predicate AllGood(g: Arena, s: nat, visited: set<nat>, q: seq<Pending>, level: nat) {
    forall i :: 0 <= i < |q| ==> GoodEntry(g, s, visited, q[i], level)
  }

  predicate Ordered(q: seq<Pending>) {
    forall i, j :: 0 <= i < j < |q| ==> q[i].0 != q[j].0 && |q[i].1| <= |q[j].1|
  }

  ghost predicate Layered(g: Arena, s: nat, visited: set<nat>, q: seq<Pending>, level: nat) {
    AllGood(g, s, visited, q, level) && Ordered(q)
  }

  lemma DequeueOrdered(q: seq<Pending>)
    requires Ordered(q) && |q| > 0
    ensures Ordered(q[1..])
    ensures Queued(q) == {q[0].0} + Queued(q[1..])
    ensures q[0].0 !in Queued(q[1..])
  {
    var r := q[1..];
    assert forall i :: 0 <= i < |r| ==> r[i] == q[i + 1];
    assert q[0].0 !in Queued(r);
    assert Queued(q) <= {q[0].0} + Queued(r) by {
      forall u | u in Queued(q) && u != q[0].0 ensures u in Queued(r) {
        var i :| 0 <= i < |q| && q[i].0 == u;
        assert r[i - 1].0 == u;
      }
    }
  }

  lemma DequeueGood(g: Arena, s: nat, visited: set<nat>, q: seq<Pending>, level: nat)
    requires AllGood(g, s, visited, q, level) && Ordered(q) && |q| > 0
    ensures AllGood(g, s, visited, q[1..], |q[0].1| - 1)
  {
    var r := q[1..];
    forall i | 0 <= i < |r| ensures GoodEntry(g, s, visited, r[i], |q[0].1| - 1) {
      assert r[i] == q[i + 1];
      assert GoodEntry(g, s, visited, q[i + 1], level);
      assert |q[0].1| <= |q[i + 1].1|;
    }
  }

  lemma QueuedAppend(q: seq<Pending>, x: Pending)
    ensures Queued(q + [x]) == Queued(q) + {x.0}
  {
    var q' := q + [x];
    forall u | u in Queued(q') ensures u in Queued(q) + {x.0} {
      var i :| 0 <= i < |q'| && q'[i].0 == u;
      if i < |q| {
        assert q[i].0 == u;
      }
    }
    assert q'[|q|].0 == x.0;
    forall u | u in Queued(q) ensures u in Queued(q') {
      var i :| 0 <= i < |q| && q[i].0 == u;
      assert q'[i].0 == u;
    }
  }

  lemma NoRepeatsAppend(path: seq<nat>, next: nat, visited: set<nat>)
    requires NoRepeats(path) && next !in visited && Within(path, visited)
    ensures NoRepeats(path + [next]) && Within(path + [next], visited + {next})
  {
    var p := path + [next];
    forall i, j | 0 <= i < j < |p| ensures p[i] != p[j] {
      if j == |path| {
        assert p[i] == path[i];
      } else {
        assert p[i] == path[i] && p[j] == path[j];
      }
    }
  }

  lemma EnqueueGood(g: Arena, s: nat, visited: set<nat>, q: seq<Pending>, level: nat, e: Pending)
    requires AllGood(g, s, visited, q, level)
    requires GoodEntry(g, s, visited + {e.0}, e, level)
    ensures AllGood(g, s, visited + {e.0}, q + [e], level)
  {
    var q' := q + [e];
    forall i | 0 <= i < |q'| ensures GoodEntry(g, s, visited + {e.0}, q'[i], level) {
      if i < |q| {
        assert q'[i] == q[i];
        assert GoodEntry(g, s, visited, q[i], level);
      }
    }
  }

  lemma EnqueueOrdered(q: seq<Pending>, e: Pending, visited: set<nat>, n: nat)
    requires Ordered(q)
    requires forall i :: 0 <= i < |q| ==> q[i].0 in visited && |q[i].1| <= n
    requires e.0 !in visited && |e.1| == n
    ensures Ordered(q + [e])
  {
  }

  lemma EnqueueKeeps(g: Arena, s: nat, visited: set<nat>, q: seq<Pending>, level: nat, path: seq<nat>, next: nat)
    requires Layered(g, s, visited, q, level)
    requires next !in visited && Within(path, visited)
    requires NoRepeats(path) && |path| == level + 1
    requires Shortest(g, path + [next], s, next)
    ensures Layered(g, s, visited + {next}, q + [(next, path + [next])], level)
    ensures Queued(q + [(next, path + [next])]) == Queued(q) + {next}
  {
    var e := (next, path + [next]);
    NoRepeatsAppend(path, next, visited);
    QueuedAppend(q, e);
    EnqueueGood(g, s, visited, q, level, e);
    forall i | 0 <= i < |q| ensures q[i].0 in visited && |q[i].1| <= level + 2 {
      assert GoodEntry(g, s, visited, q[i], level);
      assert q[i].1[|q[i].1| - 1] in visited;
    }
    EnqueueOrdered(q, e, visited, level + 2);
  }

  /** The breadth-first step: a neighbour of the entry being expanded that
      nobody has seen yet is reached by a fewest-hop walk through that entry. */
  lemma NextIsShortest(g: Arena, s: nat, visited: set<nat>, expanded: set<nat>, q: seq<Pending>,
                       level: nat, cur: nat, path: seq<nat>, k: nat)
    requires AllGood(g, s, visited, q, level)
    requires visited == expanded + {cur} + Queued(q) && s in visited
    requires Closure(g, expanded, visited)
    requires Shortest(g, path, s, cur) && |path| == level + 1
    requires k < |g[cur].neighbours| && g[cur].neighbours[k].to !in visited && g[cur].neighbours[k].to < |g|
    ensures Shortest(g, path + [g[cur].neighbours[k].to], s, g[cur].neighbours[k].to)
  {
    forall u | u in visited && u !in expanded ensures NoFewerThan(g, s, u, level + 1) {
      if u != cur {
        var i :| 0 <= i < |q| && q[i].0 == u;
        assert GoodEntry(g, s, visited, q[i], level);
      }
    }
    var next := g[cur].neighbours[k].to;
    FrontierBound(g, s, visited, expanded, level + 1, next);
    WalkExtend(g, path, s, k);
  }

  /** The marks after the first `k` neighbours of `cur`: each of them is
      visited, everything visited since `visited0` is a neighbour of `cur`,
      and the visited records are the expanded ones, `cur` and the queued
      ones, with each record listed by an expanded one visited. */
  ghost predicate Marked(g: Arena, s: nat, expanded: set<nat>, cur: nat, visited0: set<nat>, k: nat,
                         visited: set<nat>, queue: seq<Pending>) {
    && InRange(g) && s in visited && cur < |g| && k <= |g[cur].neighbours|
    && visited0 <= visited && (forall u :: u in visited ==> u < |g|)
    && (forall j :: 0 <= j < k ==> g[cur].neighbours[j].to in visited)
    && (forall u :: u in visited - visited0 ==> Linked(g, cur, u))
    && visited == expanded + {cur} + Queued(queue)
    && cur !in expanded && cur !in Queued(queue) && expanded !! Queued(queue)
    && Closure(g, expanded, visited)
  }

  /** The queue grew from `queue0` only by entries that extend `path`, and
      only when something was newly visited. */
  ghost predicate QueueGrown(path: seq<nat>, visited0: set<nat>, queue0: seq<Pending>, visited: set<nat>, queue: seq<Pending>) {
    && |queue0| <= |queue| && queue[..|queue0|] == queue0
    && (forall i :: |queue0| <= i < |queue| ==> queue[i].1 == path + [queue[i].0])
    && (visited == visited0 ==> queue == queue0)
  }

  /** The state after the first `k` neighbours of `cur`, reached along `path`
      at depth `level`. */
  ghost predicate Expanding(g: Arena, s: nat, expanded: set<nat>, cur: nat, path: seq<nat>, level: nat,
                            visited0: set<nat>, queue0: seq<Pending>, k: nat, visited: set<nat>, queue: seq<Pending>) {
    && Marked(g, s, expanded, cur, visited0, k, visited, queue)
    && QueueGrown(path, visited0, queue0, visited, queue)
    && Shortest(g, path, s, cur) && NoRepeats(path) && |path| == level + 1 && Within(path, visited)
    && Layered(g, s, visited, queue, level)
  }

  lemma MarkStep(g: Arena, s: nat, expanded: set<nat>, cur: nat, visited0: set<nat>, k: nat,
                 visited: set<nat>, queue: seq<Pending>, x: Pending)
    requires Marked(g, s, expanded, cur, visited0, k, visited, queue)
    requires k < |g[cur].neighbours| && x.0 == g[cur].neighbours[k].to && x.0 !in visited
    ensures Marked(g, s, expanded, cur, visited0, k + 1, visited + {x.0}, queue + [x])
  {
    QueuedAppend(queue, x);
    assert Linked(g, cur, x.0);
  }

  lemma GrowStep(path: seq<nat>, visited0: set<nat>, queue0: seq<Pending>, visited: set<nat>, queue: seq<Pending>, next: nat)
    requires QueueGrown(path, visited0, queue0, visited, queue)
    requires visited0 <= visited && next !in visited
    ensures QueueGrown(path, visited0, queue0, visited + {next}, queue + [(next, path + [next])])
  {
    var queue' := queue + [(next, path + [next])];
    assert queue'[..|queue0|] == queue0 by {
      assert queue'[..|queue|] == queue;
    }
  }

  /** Queueing the next neighbour of `cur`, when it is not visited yet, keeps
      the expansion state. */
  lemma ExpandStep(g: Arena, s: nat, expanded: set<nat>, cur: nat, path: seq<nat>, level: nat,
                   visited0: set<nat>, queue0: seq<Pending>, k: nat, visited: set<nat>, queue: seq<Pending>)
    requires Expanding(g, s, expanded, cur, path, level, visited0, queue0, k, visited, queue)
    requires k < |g[cur].neighbours| && g[cur].neighbours[k].to !in visited
    ensures var next := g[cur].neighbours[k].to;
      Expanding(g, s, expanded, cur, path, level, visited0, queue0, k + 1, visited + {next}, queue + [(next, path + [next])])
  {
    var next := g[cur].neighbours[k].to;
    NextIsShortest(g, s, visited, expanded, queue, level, cur, path, k);
    EnqueueKeeps(g, s, visited, queue, level, path, next);
    MarkStep(g, s, expanded, cur, visited0, k, visited, queue, (next, path + [next]));
    GrowStep(path, visited0, queue0, visited, queue, next);
    assert Within(path, visited + {next});
  }

  /** Passing over a neighbour of `cur` that is already visited keeps the
      expansion state. */
  lemma SkipStep(g: Arena, s: nat, expanded: set<nat>, cur: nat, path: seq<nat>, level: nat,
                 visited0: set<nat>, queue0: seq<Pending>, k: nat, visited: set<nat>, queue: seq<Pending>)
    requires Expanding(g, s, expanded, cur, path, level, visited0, queue0, k, visited, queue)
    requires k < |g[cur].neighbours| && g[cur].neighbours[k].to in visited
    ensures Expanding(g, s, expanded, cur, path, level, visited0, queue0, k + 1, visited, queue)
  {
  }

  /** The records listed in `links` that are not in `visited`, each at its
      first listing, in adjacency order: the records the expansion of one
      record queues. */
  function FreshTargets(visited: set<nat>, links: seq<Link>): (r: seq<nat>)
    ensures forall i :: 0 <= i < |r| ==> r[i] !in visited
    ensures forall i, j :: 0 <= i < j < |r| ==> r[i] != r[j]
    decreases |links|
  {
    if |links| == 0 then []
    else
      var p := FreshTargets(visited, links[..|links| - 1]);
      var v := links[|links| - 1].to;
      if v in visited || v in p then p else p + [v]
  }

  /** A record is a fresh target exactly when it is listed and not visited. */
  lemma {:induction false} FreshTargetsMembers(visited: set<nat>, links: seq<Link>)
    ensures forall v :: v in FreshTargets(visited, links) <==>
      v !in visited && exists j :: 0 <= j < |links| && links[j].to == v
    decreases |links|
  {
    if |links| > 0 {
      var p := links[..|links| - 1];
      FreshTargetsMembers(visited, p);
      forall v | v !in visited && (exists j :: 0 <= j < |links| && links[j].to == v)
        ensures v in FreshTargets(visited, links)
      {
        var j :| 0 <= j < |links| && links[j].to == v;
        if j < |p| {
          assert p[j].to == v;
        }
      }
      forall v | v in FreshTargets(visited, links)
        ensures exists j :: 0 <= j < |links| && links[j].to == v
      {
        if v in FreshTargets(visited, p) {
          var j :| 0 <= j < |p| && p[j].to == v;
          assert links[j].to == v;
        } else {
          assert links[|links| - 1].to == v;
        }
      }
    }
  }

  /** `a` is the position of the first listing of `v` in `links`. */
  ghost predicate FirstListed(links: seq<Link>, v: nat, a: nat) {
    a < |links| && links[a].to == v && forall c :: 0 <= c < a ==> links[c].to != v
  }

  /** The fresh targets come in the order of their first listings. */
  lemma {:induction false} FreshTargetsInOrder(visited: set<nat>, links: seq<Link>, i: nat, j: nat, a: nat, b: nat)
    requires i < j < |FreshTargets(visited, links)|
    requires FirstListed(links, FreshTargets(visited, links)[i], a)
    requires FirstListed(links, FreshTargets(visited, links)[j], b)
    ensures a < b
    decreases |links|
  {
    var n := |links|;
    var p := links[..n - 1];
    var r, q := FreshTargets(visited, links), FreshTargets(visited, p);
    FreshTargetsMembers(visited, p);
    assert r[i] in q && |q| <= |r| by {
      assert r[..|q|] == q;
    }
    var c :| 0 <= c < |p| && p[c].to == r[i];
    assert links[c].to == r[i];
    assert a < n - 1;
    if j < |q| {
      assert r[j] in q;
      var d :| 0 <= d < |p| && p[d].to == r[j];
      assert links[d].to == r[j];
      assert r[i] == q[i] && r[j] == q[j];
      FreshTargetsInOrder(visited, p, i, j, a, b);
    } else {
      assert r[j] == links[n - 1].to && r[j] !in q;
    }
  }

  /** The deque entries queued for the records `vs`, each with `path` extended by it. */
  function Extensions(path: seq<nat>, vs: seq<nat>): (r: seq<Pending>)
    ensures |r| == |vs| && forall i :: 0 <= i < |vs| ==> r[i] == (vs[i], path + [vs[i]])
  {
    seq(|vs|, i requires 0 <= i < |vs| => (vs[i], path + [vs[i]]))
  }

  /** The expansion after the first `k` of `links`: the newly visited records
      and the entries queued since `queue0` are those of the fresh targets of
      `links[..k]`. */
  ghost predicate Enqueued(path: seq<nat>, visited0: set<nat>, queue0: seq<Pending>, links: seq<Link>, k: nat,
                           visited: set<nat>, queue: seq<Pending>) {
    && k <= |links| && |queue0| <= |queue|
    && visited == visited0 + (set v | v in FreshTargets(visited0, links[..k]))
    && queue[|queue0|..] == Extensions(path, FreshTargets(visited0, links[..k]))
  }

  lemma EnqueuedStart(path: seq<nat>, visited0: set<nat>, queue0: seq<Pending>, links: seq<Link>)
    ensures Enqueued(path, visited0, queue0, links, 0, visited0, queue0)
  {
    assert links[..0] == [] && queue0[|queue0|..] == [];
  }

  /** Marking and queueing an unvisited `k`-th neighbour adds it to the fresh targets. */
  lemma EnqueuedFresh(path: seq<nat>, visited0: set<nat>, queue0: seq<Pending>, links: seq<Link>, k: nat,
                      visited: set<nat>, queue: seq<Pending>)
    requires Enqueued(path, visited0, queue0, links, k, visited, queue) && k < |links|
    requires links[k].to !in visited
    ensures Enqueued(path, visited0, queue0, links, k + 1, visited + {links[k].to}, queue + [(links[k].to, path + [links[k].to])])
  {
    var v := links[k].to;
    assert links[..k + 1][..k] == links[..k];
    var p := FreshTargets(visited0, links[..k]);
    assert FreshTargets(visited0, links[..k + 1]) == p + [v];
    assert (queue + [(v, path + [v])])[|queue0|..] == queue[|queue0|..] + [(v, path + [v])];
  }

  /** Passing over a visited `k`-th neighbour leaves the fresh targets as they were. */
  lemma EnqueuedSkip(path: seq<nat>, visited0: set<nat>, queue0: seq<Pending>, links: seq<Link>, k: nat,
                     visited: set<nat>, queue: seq<Pending>)
    requires Enqueued(path, visited0, queue0, links, k, visited, queue) && k < |links|
    requires links[k].to in visited
    ensures Enqueued(path, visited0, queue0, links, k + 1, visited, queue)
  {
    assert links[..k + 1][..k] == links[..k];
  }

  lemma EnqueuedEnd(path: seq<nat>, visited0: set<nat>, queue0: seq<Pending>, links: seq<Link>,
                    visited: set<nat>, queue: seq<Pending>)
    requires Enqueued(path, visited0, queue0, links, |links|, visited, queue)
    ensures visited == visited0 + (set v | v in FreshTargets(visited0, links))
    ensures queue[|queue0|..] == Extensions(path, FreshTargets(visited0, links))
  {
    assert links[..|links|] == links;
  }

  /** The invariant of the search loop: `expanded` holds the records whose
      neighbours have all been visited, the visited records are the expanded
      and the queued ones, and the queue is layered at depth `level`. */
  ghost predicate Frontier(g: Arena, s: nat, t: nat, expanded: set<nat>, visited: set<nat>, queue: seq<Pending>, level: nat) {
    && InRange(g) && s < |g| && t < |g| && s in visited && t !in expanded
    && (forall u :: u in visited ==> u < |g|)
    && visited == expanded + Queued(queue) && expanded !! Queued(queue)
    && Closure(g, expanded, visited)
    && Layered(g, s, visited, queue, level)
  }

  /** Before the first step only the start record is visited and queued. */
  lemma FrontierInit(g: Arena, s: nat, t: nat)
    requires InRange(g) && s < |g| && t < |g|
    ensures Frontier(g, s, t, {}, {s}, [(s, [s])], 0)
  {
    var q: seq<Pending> := [(s, [s])];
    assert q[0].0 == s && Queued(q) == {s};
    assert WalkBetween(g, [s], s, s);
  }

  /** Taking the front entry starts the expansion of its record. */
  lemma PopStep(g: Arena, s: nat, t: nat, expanded: set<nat>, visited: set<nat>, queue: seq<Pending>, level: nat)
    requires Frontier(g, s, t, expanded, visited, queue, level) && |queue| > 0
    ensures Expanding(g, s, expanded, queue[0].0, queue[0].1, |queue[0].1| - 1,
                      visited, queue[1..], 0, visited, queue[1..])
  {
    DequeueOrdered(queue);
    DequeueGood(g, s, visited, queue, level);
    assert GoodEntry(g, s, visited, queue[0], level);
    assert queue[1..][..|queue[1..]|] == queue[1..];
  }

  /** Once every neighbour of `cur` is visited, `cur` counts as expanded. */
  lemma ExpandedStep(g: Arena, s: nat, t: nat, expanded: set<nat>, cur: nat, path: seq<nat>, level: nat,
                     visited0: set<nat>, queue0: seq<Pending>, visited: set<nat>, queue: seq<Pending>)
    requires cur < |g| && Expanding(g, s, expanded, cur, path, level, visited0, queue0, |g[cur].neighbours|, visited, queue)
    requires cur != t && t !in expanded && t < |g|
    ensures Frontier(g, s, t, expanded + {cur}, visited, queue, level)
    ensures visited0 <= visited && (visited == visited0 ==> queue == queue0)
  {
  }
}
