/** A run that shows why a reallocation must be persisted before the next allocation on its node. */
module PortCollision {
  import opened Common
  import opened Ports

  const NO_FAULTS := Faults({}, {})

  /** Node scope, global range 1 to 10, two gameservers on two nodes. */
  function Apart(x: Id, y: Id, a: NodeId, b: NodeId, mx: seq<PortMapping>, my: seq<PortMapping>): Table {
    Table(false, 1, 10, map[], map[x := Row(a, mx, true), y := Row(b, my, true)], map[], map[], map[])
  }

  function Moving(t: Table, id: Id, n: NodeId, result: seq<PortMapping>): Table {
    t.(moving := t.moving[id := Move(n, result, true)])
  }

  /** A small game whose ports are mapped from port 1 on. */
  ghost predicate FromOne(game: seq<GamePort>, result: seq<PortMapping>) {
    game != [] && |Numbers(game)| <= 2 && MappedAt(game, 1, result) && 1 in HostPorts(result)
  }

  lemma FromOneIsPositive(game: seq<GamePort>, result: seq<PortMapping>)
    requires FromOne(game, result)
    ensures 0 !in HostPorts(result)
  {
    forall p | p in HostPorts(result) ensures p >= 1 {
      var i :| 0 <= i < |result| && result[i].port == p;
      MappingKeepsOrder(game, 1, result, i, i);
    }
  }

  /** An empty node gives the first block of the range. */
  lemma EmptyNodeAllocates(t: Table, id: Id, game: seq<GamePort>, node: NodeId, result: seq<PortMapping>)
    requires t.ranges == map[] && t.rangeStart == 1 && t.rangeEnd == 10 && !t.clusterWide && id in t.rows
    requires t.Used(node, id) == {} && FromOne(game, result)
    ensures t.Step(DoReallocate(id, game, node, NO_FAULTS), Moving(t, id, node, result))
  {
    assert FreeBlock({}, 1, 10, |Numbers(game)|, 1);
    assert LeastFree({}, 1, 10, |Numbers(game)|, 1);
    assert t.Reallocated(id, game, node, NO_FAULTS, Move(node, result, true));
  }

  lemma ApartIsValid(x: Id, y: Id, a: NodeId, b: NodeId, mx: seq<PortMapping>, my: seq<PortMapping>)
    requires x != y && a != b && x != "" && y != ""
    ensures Apart(x, y, a, b, mx, my).Valid()
  {
  }

  function Events(x: Id, y: Id, n: NodeId, gx: seq<GamePort>, gy: seq<GamePort>): seq<Event> {
    [DoReallocate(x, gx, n, NO_FAULTS), DoReallocate(y, gy, n, NO_FAULTS), DoPersistMove(x), DoPersistMove(y)]
  }

  function Tables(t: Table, x: Id, y: Id, n: NodeId, mx: seq<PortMapping>, my: seq<PortMapping>): seq<Table>
    requires x !in t.moving && y !in t.moving && x != y
  {
    var both := Moving(Moving(t, x, n, mx), y, n, my);
    [t, Moving(t, x, n, mx), both, both.Moved(x), both.Moved(x).Moved(y)]
  }

  /** Neither reallocation knows of the other; both are persisted and share port 1. */
  lemma CollisionRun(x: Id, y: Id, a: NodeId, b: NodeId, n: NodeId, gx: seq<GamePort>, gy: seq<GamePort>,
                     mx: seq<PortMapping>, my: seq<PortMapping>)
    requires x != y && a != b && a != n && b != n && x != "" && y != "" && n != ""
    requires FromOne(gx, mx) && FromOne(gy, my)
    ensures
      var t := Apart(x, y, a, b, mx, my);
      var moved := Moving(t, x, n, mx);
      var last := Moving(moved, y, n, my).Moved(x).Moved(y);
      && IsRun(Tables(t, x, y, n, mx, my), Events(x, y, n, gx, gy)) && Tables(t, x, y, n, mx, my)[4] == last
      && t.Valid() && !moved.Admissible(DoReallocate(y, gy, n, NO_FAULTS))
      && Moving(moved, y, n, my).MoveFree(x) && Moving(moved, y, n, my).MoveFree(y)
      && !Exclusive(last.rows, last.inflight, false)
  {
    var t := Apart(x, y, a, b, mx, my);
    var moved := Moving(t, x, n, mx);
    var both := Moving(moved, y, n, my);
    ApartIsValid(x, y, a, b, mx, my);
    BothReallocate(x, y, a, b, n, gx, gy, mx, my);
    PersistSteps(both, x, y);
    FourSteps(t, moved, both, both.Moved(x), both.Moved(x).Moved(y), DoReallocate(x, gx, n, NO_FAULTS),
              DoReallocate(y, gy, n, NO_FAULTS), DoPersistMove(x), DoPersistMove(y));
    FromOneIsPositive(gx, mx);
    BothAreFree(both, x, y, n, mx, my);
  }

  lemma BothReallocate(x: Id, y: Id, a: NodeId, b: NodeId, n: NodeId, gx: seq<GamePort>, gy: seq<GamePort>,
                       mx: seq<PortMapping>, my: seq<PortMapping>)
    requires x != y && a != n && b != n && FromOne(gx, mx) && FromOne(gy, my)
    ensures
      var t := Apart(x, y, a, b, mx, my);
      var moved := Moving(t, x, n, mx);
      && t.Step(DoReallocate(x, gx, n, NO_FAULTS), moved)
      && moved.Step(DoReallocate(y, gy, n, NO_FAULTS), Moving(moved, y, n, my))
      && !moved.Admissible(DoReallocate(y, gy, n, NO_FAULTS))
  {
    var t := Apart(x, y, a, b, mx, my);
    var moved := Moving(t, x, n, mx);
    NothingUsed(t, x, n);
    NothingUsed(moved, y, n);
    EmptyNodeAllocates(t, x, gx, n, mx);
    EmptyNodeAllocates(moved, y, gy, n, my);
    assert x in moved.moving && moved.moving[x].node == n;
  }

  lemma NothingUsed(t: Table, id: Id, n: NodeId)
    requires !t.clusterWide && t.pending == map[] && forall i :: i in t.rows ==> t.rows[i].node != n
    ensures t.Used(n, id) == {}
  {
  }

  lemma PersistSteps(t: Table, x: Id, y: Id)
    requires x in t.moving && y in t.moving && x != y
    ensures t.Step(DoPersistMove(x), t.Moved(x)) && t.Moved(x).Step(DoPersistMove(y), t.Moved(x).Moved(y))
  {
  }

  lemma FourSteps(t0: Table, t1: Table, t2: Table, t3: Table, t4: Table, e0: Event, e1: Event, e2: Event, e3: Event)
    requires t0.Step(e0, t1) && t1.Step(e1, t2) && t2.Step(e2, t3) && t3.Step(e3, t4)
    ensures IsRun([t0, t1, t2, t3, t4], [e0, e1, e2, e3])
  {
    var ts, es := [t0, t1, t2, t3, t4], [e0, e1, e2, e3];
    forall i | 0 <= i < 4 ensures ts[i].Step(es[i], ts[i + 1]) {
      assert i == 0 || i == 1 || i == 2 || i == 3;
    }
  }

  /** Each move is safe by itself; they may not both be persisted, because they share port 1. */
  lemma BothAreFree(t: Table, x: Id, y: Id, n: NodeId, mx: seq<PortMapping>, my: seq<PortMapping>)
    requires !t.clusterWide && x != y && n != "" && x in t.rows && y in t.rows && t.rows[x].auto && t.rows[y].auto
    requires Exclusive(t.rows, t.inflight, false) && t.inflight == map[]
    requires forall i :: i in t.rows ==> t.rows[i].node != n
    requires x in t.moving && t.moving[x] == Move(n, mx, true) && y in t.moving && t.moving[y] == Move(n, my, true)
    requires 1 in HostPorts(mx) && 1 in HostPorts(my) && 0 !in HostPorts(mx)
    ensures t.MoveFree(x) && t.MoveFree(y)
    ensures !Exclusive(t.Moved(x).Moved(y).rows, t.Moved(x).Moved(y).inflight, false)
  {
    t.TwoMovesAreSafeExactly(x, y);
  }

  // ----- two such games -----

  const ONE_PORT := [GamePort("game", 100, "udp")]
  const TWO_PORTS := [GamePort("game", 7, "tcp"), GamePort("query", 8, "udp")]

  const MAPPED_ONE := [PortMapping("game", 1, "udp")]
  const MAPPED_TWO := [PortMapping("game", 1, "tcp"), PortMapping("query", 2, "udp")]

  lemma RankOfLeast(numbers: set<int>, n: int)
    requires forall m :: m in numbers ==> n <= m
    ensures Rank(numbers, n) == 0
  {
    assert (set m | m in numbers && m < n) == {};
  }

  lemma RankOfSecond(a: int, b: int)
    requires a < b
    ensures Rank({a, b}, b) == 1
  {
    var numbers := {a, b};
    assert (set m | m in numbers && m < b) == {a};
  }

  lemma OneIsMapped()
    ensures FromOne(ONE_PORT, MAPPED_ONE)
  {
    assert ONE_PORT[0] in ONE_PORT && MAPPED_ONE[0] in MAPPED_ONE;
    assert Numbers(ONE_PORT) == {100};
    RankOfLeast({100}, 100);
  }

  lemma TwoAreMapped()
    ensures FromOne(TWO_PORTS, MAPPED_TWO)
  {
    assert TWO_PORTS[0] in TWO_PORTS && TWO_PORTS[1] in TWO_PORTS && MAPPED_TWO[0] in MAPPED_TWO;
    assert Numbers(TWO_PORTS) == {7, 8};
    RankOfLeast({7, 8}, 7);
    RankOfSecond(7, 8);
  }

  lemma CollisionExample()
    ensures
      var events := Events("x", "y", "n", ONE_PORT, TWO_PORTS);
      var tables := Tables(Apart("x", "y", "a", "b", MAPPED_ONE, MAPPED_TWO), "x", "y", "n", MAPPED_ONE, MAPPED_TWO);
      IsRun(tables, events) && !Exclusive(tables[4].rows, tables[4].inflight, false)
  {
    OneIsMapped();
    TwoAreMapped();
    CollisionRun("x", "y", "a", "b", "n", ONE_PORT, TWO_PORTS, MAPPED_ONE, MAPPED_TWO);
  }
}
