/** The example network the repository builds at start-up: three lines of four
    stations each (Red K1-K4, Blue M1-M4, Orange T1-T4) and three transfer
    connections (K1-M2, K3-T2, M4-T3).  Arena indices follow the order in
    which the stations are added: K1..K4 are 0..3, M1..M4 are 4..7 and
    T1..T4 are 8..11. */
module Scenario {
  import opened Stations
  import opened Walks
  import opened Heuristic
  import opened Metro

  const Red := "Kırmızı Hat"
  const Blue := "Mavi Hat"
  const Orange := "Turuncu Hat"

  /** The number of stations in the example. */
  const Size := 12

  /** The key of the record at index `i`: a line letter and the position on the line. */
  function ExampleKey(i: nat): string
    requires i < Size
  {
    if i == 0 then "K1" else if i == 1 then "K2" else if i == 2 then "K3" else if i == 3 then "K4"
    else if i == 4 then "M1" else if i == 5 then "M2" else if i == 6 then "M3" else if i == 7 then "M4"
    else if i == 8 then "T1" else if i == 9 then "T2" else if i == 10 then "T3" else "T4"
  }

  function ExampleLine(i: nat): string
    requires i < Size
  {
    if i < 4 then Red else if i < 8 then Blue else Orange
  }

  function ExampleName(i: nat): string
    requires i < Size
  {
    if i == 0 || i == 5 then "Kızılay"
    else if i == 1 then "Ulus"
    else if i == 2 || i == 9 then "Demetevler"
    else if i == 3 then "OSB"
    else if i == 4 then "AŞTİ"
    else if i == 6 then "Sıhhiye"
    else if i == 7 || i == 10 then "Gar"
    else if i == 8 then "Batıkent"
    else "Keçiören"
  }

  /** The neighbour list of the record at index `i`, in the order its
      connections were made. */
  function ExampleLinks(i: nat): seq<Link>
    requires i < Size
  {
    if i == 0 then [Link(1, 4), Link(5, 2)]
    else if i == 1 then [Link(0, 4), Link(2, 6)]
    else if i == 2 then [Link(1, 6), Link(3, 8), Link(9, 3)]
    else if i == 3 then [Link(2, 8)]
    else if i == 4 then [Link(5, 5)]
    else if i == 5 then [Link(4, 5), Link(6, 3), Link(0, 2)]
    else if i == 6 then [Link(5, 3), Link(7, 4)]
    else if i == 7 then [Link(6, 4), Link(10, 2)]
    else if i == 8 then [Link(9, 7)]
    else if i == 9 then [Link(8, 7), Link(10, 9), Link(2, 3)]
    else if i == 10 then [Link(9, 9), Link(11, 5), Link(7, 2)]
    else [Link(10, 5)]
  }

  /** The arena after all twelve stations and twelve connections are added. */
  function Example(): Arena {
    seq(Size, i requires 0 <= i < Size => Station(ExampleKey(i), ExampleName(i), ExampleLine(i), ExampleLinks(i)))
  }

  /** The registry once the twelve stations are added. */
  function ExampleRegistry(): map<string, nat> {
    map["K1" := 0, "K2" := 1, "K3" := 2, "K4" := 3, "M1" := 4, "M2" := 5, "M3" := 6, "M4" := 7,
        "T1" := 8, "T2" := 9, "T3" := 10, "T4" := 11]
  }

  /** The example arena is a well-formed undirected network. */
  lemma ExampleSymmetric()
    ensures Symmetric(Example())
  {
    var g := Example();
    forall u, l | 0 <= u < |g| && l in g[u].neighbours
      ensures l.to < |g| && Link(u, l.time) in g[l.to].neighbours
    {
      BackLinks(u, l);
    }
  }

  lemma BackLinks(u: nat, l: Link)
    requires u < Size && l in ExampleLinks(u)
    ensures l.to < Size && Link(u, l.time) in ExampleLinks(l.to)
  {
  }

  /** Every key of the example is a letter followed by a numeral, and the
      registry sends each key to its record. */
  lemma ExampleKeys()
    ensures forall i :: 0 <= i < |Example()| ==> WellFormedKey(Example()[i].key)
    ensures forall i :: 0 <= i < Size ==> ExampleKey(i) in ExampleRegistry() && ExampleRegistry()[ExampleKey(i)] == i
  {
  }

  /** The records at most `n` hops from M1 (index 4), for `n <= 4`. */
  function Ball(n: nat): set<nat> {
    if n == 0 then {4}
    else if n == 1 then {4, 5}
    else if n == 2 then {4, 5, 6, 0}
    else if n == 3 then {4, 5, 6, 0, 7, 1}
    else {4, 5, 6, 0, 7, 1, 10, 2}
  }

  /** One more hop from the ball of radius `n` stays within radius `n + 1`. */
  lemma BallGrows(n: nat)
    requires n < 4
    ensures Closure(Example(), Ball(n), Ball(n + 1))
  {
  }

  /** Every walk from M1 is, after `i <= 4` hops, inside the ball of radius `i`. */
  lemma {:induction false} WalkInBall(w: seq<nat>, i: nat)
    requires IsWalk(Example(), w) && w[0] == 4 && i < |w| && i <= 4
    ensures w[i] in Ball(i)
  {
    if i > 0 {
      WalkInBall(w, i - 1);
      BallGrows(i - 1);
      assert Linked(Example(), w[i - 1], w[i]);
    }
  }

  /** From M1 (AŞTİ) to K4 (OSB) the fewest-hop routes visit six stations, and
      M1, M2, K1, K2, K3, K4 is one of them. */
  lemma ExampleFewestHops()
    ensures Shortest(Example(), [4, 5, 0, 1, 2, 3], 4, 3)
  {
    var g := Example();
    var w := [4, 5, 0, 1, 2, 3];
    forall i | 0 <= i < |w| - 1 ensures Linked(g, w[i], w[i + 1]) {
      if i == 0 { assert g[4].neighbours[0].to == 5; }
      else if i == 1 { assert g[5].neighbours[2].to == 0; }
      else if i == 2 { assert g[0].neighbours[0].to == 1; }
      else if i == 3 { assert g[1].neighbours[1].to == 2; }
      else { assert g[2].neighbours[1].to == 3; }
    }
    forall v | WalkBetween(g, v, 4, 3) ensures 6 <= |v| {
      if |v| <= 5 {
        WalkInBall(v, |v| - 1);
      }
    }
  }

  /** The records that list a Red-line record. */
  lemma RedPredecessors(u: nat, v: nat)
    requires Linked(Example(), u, v) && v < 4
    ensures v == 3 ==> u == 2
    ensures v == 2 ==> u == 1 || u == 3 || u == 9
    ensures v == 1 ==> u == 0 || u == 2
    ensures v == 0 ==> u == 1 || u == 5
  {
  }

  /** M1, M2, K1, K2, K3, K4 is the only six-station walk from M1 to K4. */
  lemma ExampleOnlySixWalk(w: seq<nat>)
    requires IsWalk(Example(), w) && |w| == 6 && w[0] == 4 && w[5] == 3
    ensures w == [4, 5, 0, 1, 2, 3]
  {
    var g := Example();
    forall i | 0 <= i <= 4 ensures w[i] in Ball(i) {
      WalkInBall(w, i);
    }
    forall i | 0 <= i < 5 ensures Linked(g, w[i], w[i + 1]) {
    }
    RedPredecessors(w[4], w[5]);
    RedPredecessors(w[3], w[4]);
    RedPredecessors(w[2], w[3]);
    RedPredecessors(w[1], w[2]);
  }

  /** M1, M2, K1 takes 5 + 2 = 7 minutes. */
  lemma ExampleRouteToK1()
    ensures CostsAlong(Example(), [4, 5, 0], 7)
  {
    var g := Example();
    var w := [4];
    assert CostsAlong(g, w, 0);
    CostExtend(g, w, 0, 0);
    w := w + [5];
    CostExtend(g, w, 5, 2);
    assert w + [0] == [4, 5, 0];
  }

  /** The route M1, M2, K1, K2, K3, K4 takes 5 + 2 + 4 + 6 + 8 = 25 minutes. */
  lemma ExampleRouteTime()
    ensures CostsAlong(Example(), [4, 5, 0, 1, 2, 3], 25)
  {
    var g := Example();
    var w := [4, 5, 0];
    ExampleRouteToK1();
    CostExtend(g, w, 7, 0);
    w := w + [1];
    CostExtend(g, w, 11, 1);
    w := w + [2];
    CostExtend(g, w, 17, 1);
    w := w + [3];
    assert w == [4, 5, 0, 1, 2, 3];
  }

  /** The estimate is not admissible on the example: from T2 to K3 it is 4
      minutes, while the transfer connection between them takes 3. */
  lemma ExampleEstimateOverestimates()
    ensures Estimate(Example()[9], Example()[2]) == 4
    ensures CostsAlong(Example(), [9, 2], 3)
  {
    var g := Example();
    assert g[9].key == "T2" && g[2].key == "K3";
    assert NumeralValue("T2", 1) == 0 && NumeralValue("K3", 1) == 0;
    assert CostsAlong(g, [9], 0);
    CostExtend(g, [9], 0, 2);
    assert [9] + [2] == [9, 2];
  }

  /** The first query of the example, fewest hops from M1 (AŞTİ) to K4 (OSB),
      on a network holding the example arena: the route is M1, M2, K1, K2, K3, K4. */
  method QueryExampleHops(net: Network) returns (hops: Option<seq<nat>>)
    requires net.Valid() && net.stations == Example() && net.registry == ExampleRegistry()
    ensures hops == Some([4, 5, 0, 1, 2, 3])
  {
    assert ExampleRegistry()["M1"] == 4 && ExampleRegistry()["K4"] == 3;
    ExampleFewestHops();
    hops := net.FewestHops("M1", "K4");
    ShortestSameLength(Example(), hops.value, [4, 5, 0, 1, 2, 3], 4, 3);
    ExampleOnlySixWalk(hops.value);
  }

  /** The first query of the example, fastest route from M1 to K4: a route is
      found, since K4 is reachable from M1. */
  method QueryExampleFastest(net: Network) returns (fastest: Option<(seq<nat>, int)>)
    requires net.Valid() && net.stations == Example() && net.registry == ExampleRegistry()
    ensures fastest.Some? && |fastest.value.0| > 0 && fastest.value.0[0] == 4 && fastest.value.0[|fastest.value.0| - 1] == 3
  {
    ExampleKeys();
    assert ExampleKey(4) == "M1" && ExampleKey(3) == "K4";
    ExampleFewestHops();
    fastest := net.FastestRoute("M1", "K4");
  }
}
