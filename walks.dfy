/** Walks through the arena: the vocabulary in which both route searches are specified. */
module Walks {
  import opened Stations

  /** `v` appears in the neighbour list of the record `u`. */
  ghost predicate Linked(g: Arena, u: nat, v: nat) {
    u < |g| && exists k :: 0 <= k < |g[u].neighbours| && g[u].neighbours[k].to == v
  }

  /** A non-empty sequence of arena records, each a neighbour of the one before. */
  ghost predicate IsWalk(g: Arena, w: seq<nat>) {
    && |w| > 0
    && (forall i :: 0 <= i < |w| ==> w[i] < |g|)
    && (forall i :: 0 <= i < |w| - 1 ==> Linked(g, w[i], w[i + 1]))
  }

  ghost predicate WalkBetween(g: Arena, w: seq<nat>, s: nat, t: nat) {
    IsWalk(g, w) && w[0] == s && w[|w| - 1] == t
  }

  ghost predicate Reachable(g: Arena, s: nat, t: nat) {
    exists w :: WalkBetween(g, w, s, t)
  }

  /** Every walk from `s` to `v` visits at least `n` records (makes at least `n - 1` hops). */
  ghost predicate NoFewerThan(g: Arena, s: nat, v: nat, n: nat) {
    forall w :: WalkBetween(g, w, s, v) ==> n <= |w|
  }

  /** `w` is a walk from `s` to `t` with the fewest hops. */
  ghost predicate Shortest(g: Arena, w: seq<nat>, s: nat, t: nat) {
    WalkBetween(g, w, s, t) && NoFewerThan(g, s, t, |w|)
  }

  ghost predicate NoRepeats(w: seq<nat>) {
    forall i, j :: 0 <= i < j < |w| ==> w[i] != w[j]
  }

  /** `c` is the sum of the travel times of some choice of adjacency entries
      leading along `w` (parallel connections may have different times). */
  ghost predicate CostsAlong(g: Arena, w: seq<nat>, c: int)
    decreases |w|
  {
    && |w| > 0
    && w[|w| - 1] < |g|
    && if |w| == 1 then c == 0
       else
         var u := w[|w| - 2];
         && u < |g|
         && exists k :: 0 <= k < |g[u].neighbours| && g[u].neighbours[k].to == w[|w| - 1]
                        && CostsAlong(g, w[..|w| - 1], c - g[u].neighbours[k].time)
  }

  /** Every record listed by a member of `from` lies in `into`. */
  ghost predicate Closure(g: Arena, from: set<nat>, into: set<nat>) {
    forall u, k :: u in from && u < |g| && 0 <= k < |g[u].neighbours| ==> g[u].neighbours[k].to in into
  }

  /** A walk leaving a set of records must cross its boundary somewhere. */
  lemma {:induction false} FirstExit(w: seq<nat>, inside: set<nat>) returns (j: nat)
    requires |w| > 0 && w[0] in inside && w[|w| - 1] !in inside
    ensures 1 <= j < |w| && w[j - 1] in inside && w[j] !in inside
    decreases |w|
  {
    if w[|w| - 2] in inside {
      j := |w| - 1;
    } else {
      j := FirstExit(w[..|w| - 1], inside);
    }
  }

  /** A set holding `s` whose records list only members of the set traps every
      walk from `s`: nothing outside it is reachable. */
  lemma {:induction false} ClosedSetTraps(g: Arena, inside: set<nat>, s: nat, t: nat)
    requires s in inside && t !in inside
    requires Closure(g, inside, inside)
    ensures !Reachable(g, s, t)
  {
    if w :| WalkBetween(g, w, s, t) {
      var j := FirstExit(w, inside);
      assert false;
    }
  }

  /** The breadth-first frontier argument: if every record listed by a `settled`
      record has been seen, and every seen but unsettled record needs at least `n`
      records to reach, then a record not yet seen needs at least `n + 1`. */
  lemma {:induction false} FrontierBound(g: Arena, s: nat, seen: set<nat>, settled: set<nat>, n: nat, v: nat)
    requires s in seen && v !in seen
    requires Closure(g, settled, seen)
    requires forall u :: u in seen && u !in settled ==> NoFewerThan(g, s, u, n)
    ensures NoFewerThan(g, s, v, n + 1)
  {
    forall w | WalkBetween(g, w, s, v) ensures n + 1 <= |w| {
      var j := FirstExit(w, seen);
      assert Linked(g, w[j - 1], w[j]);
      assert w[j - 1] !in settled;
      assert WalkBetween(g, w[..j], s, w[j - 1]);
    }
  }

  /** Appending a neighbour of the last record extends a walk. */
  lemma WalkExtend(g: Arena, w: seq<nat>, s: nat, k: nat)
    requires IsWalk(g, w) && w[0] == s
    requires 0 <= k < |g[w[|w| - 1]].neighbours| && g[w[|w| - 1]].neighbours[k].to < |g|
    ensures WalkBetween(g, w + [g[w[|w| - 1]].neighbours[k].to], s, g[w[|w| - 1]].neighbours[k].to)
  {
    var v := g[w[|w| - 1]].neighbours[k].to;
    var w' := w + [v];
    forall i | 0 <= i < |w'| - 1 ensures Linked(g, w'[i], w'[i + 1]) {
      if i < |w| - 1 {
        assert w'[i] == w[i] && w'[i + 1] == w[i + 1];
      }
    }
  }

  /** Appending a neighbour of the last record adds that entry's time to the cost. */
  lemma CostExtend(g: Arena, w: seq<nat>, c: int, k: nat)
    requires CostsAlong(g, w, c)
    requires 0 <= k < |g[w[|w| - 1]].neighbours| && g[w[|w| - 1]].neighbours[k].to < |g|
    ensures CostsAlong(g, w + [g[w[|w| - 1]].neighbours[k].to], c + g[w[|w| - 1]].neighbours[k].time)
  {
    var l := g[w[|w| - 1]].neighbours[k];
    var w' := w + [l.to];
    assert w'[..|w'| - 1] == w;
    assert w'[|w'| - 2] == w[|w| - 1];
  }

  /** A costed route is a walk. */
  lemma {:induction false} CostsAlongIsWalk(g: Arena, w: seq<nat>, c: int)
    requires CostsAlong(g, w, c)
    ensures IsWalk(g, w)
    decreases |w|
  {
    if |w| > 1 {
      var u := w[|w| - 2];
      var k :| 0 <= k < |g[u].neighbours| && g[u].neighbours[k].to == w[|w| - 1]
               && CostsAlong(g, w[..|w| - 1], c - g[u].neighbours[k].time);
      var p := w[..|w| - 1];
      CostsAlongIsWalk(g, p, c - g[u].neighbours[k].time);
      forall i | 0 <= i < |w| - 1 ensures Linked(g, w[i], w[i + 1]) {
        if i < |w| - 2 {
          assert p[i] == w[i] && p[i + 1] == w[i + 1];
          assert Linked(g, p[i], p[i + 1]);
        }
      }
      forall i | 0 <= i < |w| ensures w[i] < |g| {
        if i < |w| - 1 {
          assert p[i] == w[i];
        }
      }
    }
  }

  /** Conversely, every walk has a cost: some choice of entries along it. */
  lemma {:induction false} WalkHasCost(g: Arena, w: seq<nat>) returns (c: int)
    requires IsWalk(g, w)
    ensures CostsAlong(g, w, c)
    decreases |w|
  {
    if |w| == 1 {
      c := 0;
    } else {
      var p := w[..|w| - 1];
      assert IsWalk(g, p) by {
        forall i | 0 <= i < |p| - 1 ensures Linked(g, p[i], p[i + 1]) {
          assert Linked(g, w[i], w[i + 1]);
        }
      }
      var c' := WalkHasCost(g, p);
      assert Linked(g, w[|w| - 2], w[|w| - 1]);
      var k :| 0 <= k < |g[w[|w| - 2]].neighbours| && g[w[|w| - 2]].neighbours[k].to == w[|w| - 1];
      c := c' + g[w[|w| - 2]].neighbours[k].time;
      assert p[|p| - 1] == w[|w| - 2];
      CostExtend(g, p, c', k);
      assert p + [w[|w| - 1]] == w;
    }
  }

  /** The only fewest-hop walk from a record to itself is the record alone. */
  lemma ShortestToSelf(g: Arena, w: seq<nat>, s: nat)
    requires Shortest(g, w, s, s)
    ensures w == [s]
  {
    assert WalkBetween(g, [s], s, s);
  }

  /** All fewest-hop walks between the same two records have the same length. */
  lemma ShortestSameLength(g: Arena, w: seq<nat>, v: seq<nat>, s: nat, t: nat)
    requires Shortest(g, w, s, t) && Shortest(g, v, s, t)
    ensures |w| == |v|
  {
    assert |w| <= |v| && |v| <= |w|;
  }

  /** Cutting out the loop between two visits of the same record leaves a
      shorter walk with the same ends. */
  lemma CutLoop(g: Arena, w: seq<nat>, s: nat, t: nat, i: nat, j: nat) returns (cut: seq<nat>)
    requires WalkBetween(g, w, s, t) && i < j < |w| && w[i] == w[j]
    ensures WalkBetween(g, cut, s, t) && |cut| < |w|
  {
    cut := w[..i] + w[j..];
    forall x | 0 <= x < |cut| - 1 ensures Linked(g, cut[x], cut[x + 1]) {
      if x < i - 1 {
        assert cut[x] == w[x] && cut[x + 1] == w[x + 1];
      } else if x == i - 1 {
        assert cut[x] == w[i - 1] && cut[x + 1] == w[j] == w[i];
      } else {
        assert cut[x] == w[x + j - i] && cut[x + 1] == w[x + j - i + 1];
      }
    }
    forall x | 0 <= x < |cut| ensures cut[x] < |g| {
      if x < i {
        assert cut[x] == w[x];
      } else {
        assert cut[x] == w[x + j - i];
      }
    }
  }

  /** A fewest-hop walk never comes back to a record it has left. */
  lemma ShortestHasNoRepeats(g: Arena, w: seq<nat>, s: nat, t: nat)
    requires Shortest(g, w, s, t)
    ensures NoRepeats(w)
  {
    forall i, j | 0 <= i < j < |w| ensures w[i] != w[j] {
      if w[i] == w[j] {
        var cut := CutLoop(g, w, s, t, i, j);
        assert false;
      }
    }
  }
}
