/** Station records and the arena that owns them.

    The source keeps `Istasyon` objects that point at each other through their
    neighbour lists and compares them by identity.  Here every record lives in
    one arena (a sequence indexed by natural numbers); an adjacency entry holds
    the arena index of the neighbouring record, and the index is the identity. */
module Stations {

  datatype Option<T> = None | Some(value: T)

  /** One adjacency entry `(station, time)`: the neighbour's arena index and the travel time. */
  datatype Link = Link(to: nat, time: int)

  /** `Istasyon`: key, display name, line and the neighbour list in insertion order. */
  datatype Station = Station(key: string, name: string, line: string, neighbours: seq<Link>)

  type Arena = seq<Station>

  /** The arena positions below `n`. */
  function Indices(n: nat): (r: set<nat>)
    ensures forall i: nat :: i in r <==> i < n
  {
    if n == 0 then {} else Indices(n - 1) + {n - 1}
  }

  /** Marking more positions below `n` leaves fewer unmarked ones. */
  lemma UnmarkedShrink(n: nat, marked: set<nat>, marked': set<nat>)
    requires marked <= marked' && marked != marked' && forall u :: u in marked' ==> u < n
    ensures Indices(n) - marked' < Indices(n) - marked
  {
    var u :| u in marked' && u !in marked;
    assert u in Indices(n) - marked;
  }

  /** The symmetry invariant of an undirected network: when `u` lists `l`,
      the record `l.to` exists and lists `u` with the same time. */
  ghost predicate Symmetric(g: Arena) {
    forall u, l :: 0 <= u < |g| && l in g[u].neighbours ==>
      l.to < |g| && Link(u, l.time) in g[l.to].neighbours
  }

  /** Every adjacency entry names a record of the arena. */
  ghost predicate InRange(g: Arena) {
    forall u, k :: 0 <= u < |g| && 0 <= k < |g[u].neighbours| ==> g[u].neighbours[k].to < |g|
  }

  lemma SymmetricInRange(g: Arena)
    requires Symmetric(g)
    ensures InRange(g)
  {
    forall u, k | 0 <= u < |g| && 0 <= k < |g[u].neighbours| ensures g[u].neighbours[k].to < |g| {
      assert g[u].neighbours[k] in g[u].neighbours;
    }
  }

  /** `komsu_ekle` on the record at index `i`: appends `l` to its neighbour list. */
  function AppendLink(g: Arena, i: nat, l: Link): (r: Arena)
    requires i < |g|
    ensures |r| == |g|
    ensures r[i].neighbours == g[i].neighbours + [l]
    ensures r[i].key == g[i].key && r[i].name == g[i].name && r[i].line == g[i].line
    ensures forall u :: 0 <= u < |g| && u != i ==> r[u] == g[u]
  {
    g[i := g[i].(neighbours := g[i].neighbours + [l])]
  }

  /** `baglanti_ekle` once both records are found: `(j, time)` goes to the end of
      `i`'s list, then `(i, time)` to the end of `j`'s list. */
  function Connect(g: Arena, i: nat, j: nat, time: int): (r: Arena)
    requires i < |g| && j < |g|
    ensures |r| == |g|
    ensures forall u :: 0 <= u < |g| ==> r[u].key == g[u].key && r[u].name == g[u].name && r[u].line == g[u].line
    ensures forall u :: 0 <= u < |g| && u != i && u != j ==> r[u] == g[u]
    ensures i != j ==> r[i].neighbours == g[i].neighbours + [Link(j, time)]
    ensures i != j ==> r[j].neighbours == g[j].neighbours + [Link(i, time)]
    ensures i == j ==> r[i].neighbours == g[i].neighbours + [Link(j, time), Link(i, time)]
  {
    AppendLink(AppendLink(g, i, Link(j, time)), j, Link(i, time))
  }

  /** The entries `Connect(g, i, j, time)` adds to the list of record `u`. */
  function Added(i: nat, j: nat, time: int, u: nat): seq<Link> {
    if u == i && u == j then [Link(j, time), Link(i, time)]
    else if u == i then [Link(j, time)]
    else if u == j then [Link(i, time)]
    else []
  }

  /** Connecting two records of a symmetric arena keeps it symmetric. */
  lemma ConnectKeepsSymmetric(g: Arena, i: nat, j: nat, time: int)
    requires i < |g| && j < |g|
    requires Symmetric(g)
    ensures Symmetric(Connect(g, i, j, time))
  {
    var r := Connect(g, i, j, time);
    assert forall u :: 0 <= u < |r| ==> r[u].neighbours == g[u].neighbours + Added(i, j, time, u);
    forall u, l | 0 <= u < |r| && l in r[u].neighbours
      ensures l.to < |r| && Link(u, l.time) in r[l.to].neighbours
    {
      if l in g[u].neighbours {
        assert Link(u, l.time) in g[l.to].neighbours;
      } else {
        assert l in Added(i, j, time, u);
      }
    }
  }

  /** Appending a fresh record with no neighbours keeps the arena symmetric. */
  lemma AppendStationKeepsSymmetric(g: Arena, st: Station)
    requires Symmetric(g) && st.neighbours == []
    ensures Symmetric(g + [st])
  {
    var r := g + [st];
    forall u, l | 0 <= u < |r| && l in r[u].neighbours
      ensures l.to < |r| && Link(u, l.time) in r[l.to].neighbours
    {
      assert r[u] == g[u];
      assert r[l.to] == g[l.to];
    }
  }
}
