/** bridge/online_world.cpp: scan the live actor list and kill stock actors until none is left. */
module OnlineWorldSanitizer {
  import opened ActorList
  import opened GamePointers
  import opened Sequences
  import opened Serial

  /** What a successful scan reports; `firstStock` is 0 when there is no stock actor. */
  datatype Scan = Scan(firstStock: u32, firstStockType: int, counts: Summary)

  // ----- the list as a value ----------------------------------------------------------------

  /** Circular list through the sentinel's own cell, as the game keeps it. */
  predicate Circular(heap: Heap, sentinel: u32, local: u32, remote: set<u32>, p: seq<u32>) {
    && sentinel in heap
    && heap[sentinel].next == AtOr(p, 0, sentinel) && heap[sentinel].previous == Before(p, sentinel, |p|)
    && Plausible(sentinel) && Plausible(heap[sentinel].next) && Plausible(heap[sentinel].previous)
    && Chain(heap, sentinel, local, remote, Plausible, p, sentinel)
  }

  /** The lists that pass the scan. */
  predicate Accepted(heap: Heap, sentinel: u32, local: u32, remote: set<u32>, maximum: nat, p: seq<u32>) {
    && Plausible(local) && local != sentinel && |p| <= maximum
    && Circular(heap, sentinel, local, remote, p) && Tally(p, local, remote).local == 1
  }

  /** Removing a node from the heap and joining its neighbours. */
  function Unlink(heap: Heap, id: u32): Heap
    requires Removable(heap, id)
  {
    var node := heap[id];
    var joined := heap[node.previous := heap[node.previous].(next := node.next)];
    joined[node.next := joined[node.next].(previous := node.previous)] - {id}
  }

  function IsStock(id: u32, local: u32, remote: set<u32>): bool { Classify(id, local, remote) == Stock }

  function Stocks(p: seq<u32>, local: u32, remote: set<u32>): seq<u32> {
    if p == [] then []
    else (if IsStock(p[0], local, remote) then [p[0]] else []) + Stocks(p[1..], local, remote)
  }

  function Kept(p: seq<u32>, local: u32, remote: set<u32>): seq<u32> {
    if p == [] then []
    else (if IsStock(p[0], local, remote) then [] else [p[0]]) + Kept(p[1..], local, remote)
  }

  lemma {:induction false} StocksConcat(a: seq<u32>, b: seq<u32>, local: u32, remote: set<u32>)
    ensures Stocks(a + b, local, remote) == Stocks(a, local, remote) + Stocks(b, local, remote)
  {
    if a == [] {
      assert a + b == b;
    } else {
      assert (a + b)[1..] == a[1..] + b && (a + b)[0] == a[0];
      StocksConcat(a[1..], b, local, remote);
      Regrouped(if IsStock(a[0], local, remote) then [a[0]]
                else [], Stocks(a[1..], local, remote), Stocks(b, local, remote));
    }
  }

  lemma {:induction false} KeptConcat(a: seq<u32>, b: seq<u32>, local: u32, remote: set<u32>)
    ensures Kept(a + b, local, remote) == Kept(a, local, remote) + Kept(b, local, remote)
  {
    if a == [] {
      assert a + b == b;
    } else {
      assert (a + b)[1..] == a[1..] + b && (a + b)[0] == a[0];
      KeptConcat(a[1..], b, local, remote);
      Regrouped(if IsStock(a[0], local, remote) then []
                else [a[0]], Kept(a[1..], local, remote), Kept(b, local, remote));
    }
  }

  lemma StocksOfOne(x: u32, local: u32, remote: set<u32>)
    ensures Stocks([x], local, remote) == if IsStock(x, local, remote) then [x] else []
    ensures Kept([x], local, remote) == if IsStock(x, local, remote) then [] else [x]
  {
    assert [x][1..] == [];
  }

  lemma {:induction false} NoStocks(p: seq<u32>, local: u32, remote: set<u32>)
    requires forall x :: x in p ==> !IsStock(x, local, remote)
    ensures Stocks(p, local, remote) == [] && Kept(p, local, remote) == p
  {
    if p != [] {
      NoStocks(p[1..], local, remote);
    }
  }

  /** Taking out the first stock node takes it off the front of the stock nodes and leaves the rest
      of the list, in order. */
  lemma FirstStockOut(p: seq<u32>, i: nat, local: u32, remote: set<u32>)
    requires i < |p| && IsStock(p[i], local, remote) && forall j :: 0 <= j < i ==> !IsStock(p[j], local, remote)
    ensures Stocks(p, local, remote) == [p[i]] + Stocks(Without(p, i), local, remote)
    ensures Kept(Without(p, i), local, remote) == Kept(p, local, remote)
  {
    NoStocks(p[..i], local, remote);
    assert p == p[..i] + p[i..] && p[i..][1..] == p[i + 1..];
    StocksConcat(p[..i], p[i..], local, remote);
    StocksConcat(p[..i], p[i + 1..], local, remote);
    KeptConcat(p[..i], p[i..], local, remote);
    KeptConcat(p[..i], p[i + 1..], local, remote);
  }

  lemma {:induction false} TallyCounts(p: seq<u32>, local: u32, remote: set<u32>)
    ensures Tally(p, local, remote).stock == |Stocks(p, local, remote)|
    ensures Tally(p, local, remote).local == Tally(Kept(p, local, remote), local, remote).local
    ensures Tally(p, local, remote).stock + |Kept(p, local, remote)| == |p|
  {
    if p != [] {
      var n := |p| - 1;
      var init, x := p[..n], p[n];
      TallyCounts(init, local, remote);
      assert p == init + [x];
      StocksConcat(init, [x], local, remote);
      KeptConcat(init, [x], local, remote);
      StocksOfOne(x, local, remote);
      TallyExtends(init, x, local, remote);
      TallyExtends(Kept(init, local, remote), x, local, remote);
      assert Kept(init, local, remote) + [] == Kept(init, local, remote);
    }
  }

  predicate Removable(heap: Heap, id: u32) {
    && id in heap && heap[id].previous in heap && heap[id].next in heap
    && heap[id].previous != id && heap[id].next != id
  }

  lemma UnlinkedCells(heap: Heap, id: u32, x: u32)
    requires Removable(heap, id) && x in heap && x != id
    ensures x in Unlink(heap, id)
    ensures Unlink(heap, id)[x] ==
            Node(if x == heap[id].previous then heap[id].next else heap[x].next,
                 if x == heap[id].next then heap[id].previous else heap[x].previous, heap[x].self, heap[x].actorType)
  {
  }

  predicate Distinct(p: seq<u32>, sentinel: u32) {
    (forall i :: 0 <= i < |p| ==> p[i] != sentinel) && forall i, j :: 0 <= i < j < |p| ==> p[i] != p[j]
  }

  lemma CircularFacts(heap: Heap, sentinel: u32, local: u32, remote: set<u32>, p: seq<u32>)
    requires Circular(heap, sentinel, local, remote, p)
    ensures Distinct(p, sentinel)
    ensures forall i :: 0 <= i < |p| ==>
              && Removable(heap, p[i]) && heap[p[i]].previous == Before(p, sentinel, i)
              && heap[p[i]].next == AtOr(p, i + 1, sentinel)
  {
    forall i, j | 0 <= i < j < |p|
      ensures p[i] != p[j]
    {
      BacklinksExcludeCycles(heap, sentinel, local, remote, Plausible, p, sentinel, i, j);
    }
  }

  /** The neighbours of each node that stays, in the list without `p[i]`. */
  lemma WithoutNeighbours(p: seq<u32>, sentinel: u32, i: nat, j: nat)
    requires Distinct(p, sentinel) && i < |p| && j < |p| && j != i
    ensures var q, k := Without(p, i), if j < i then j else j - 1;
            && q[k] == p[j]
            && Before(q, sentinel, k) == (if p[j] == AtOr(p, i + 1, sentinel) then Before(p, sentinel, i)
                                          else Before(p, sentinel, j))
            && AtOr(q, k + 1, sentinel) == (if p[j] == Before(p, sentinel, i) then AtOr(p, i + 1, sentinel)
                                            else AtOr(p, j + 1, sentinel))
  {
    var q, k := Without(p, i), if j < i then j else j - 1;
    assert forall n :: 0 <= n < |q| ==> q[n] == p[if n < i then n else n + 1];
    if j == i + 1 {
    } else if j + 1 == i {
    } else {
      assert p[j] != AtOr(p, i + 1, sentinel) && p[j] != Before(p, sentinel, i);
    }
  }

  lemma UnlinkKeepsNode(heap: Heap, sentinel: u32, local: u32, remote: set<u32>, p: seq<u32>, i: nat, j: nat)
    requires Circular(heap, sentinel, local, remote, p) && i < |p| && j < |p| && j != i
    ensures Removable(heap, p[i])
    ensures Placed(Unlink(heap, p[i]), sentinel, local, remote, Plausible, Without(p, i), sentinel, if j < i then j
                   else j - 1)
  {
    CircularFacts(heap, sentinel, local, remote, p);
    WithoutNeighbours(p, sentinel, i, j);
    UnlinkedCells(heap, p[i], p[j]);
    assert NodeFits(heap, p[j], Before(p, sentinel, j), local, remote, Plausible);
    assert NodeFits(heap, p[i], Before(p, sentinel, i), local, remote, Plausible);
  }

  lemma SentinelNeighbours(p: seq<u32>, sentinel: u32, i: nat)
    requires Distinct(p, sentinel) && i < |p|
    ensures var q := Without(p, i);
            && AtOr(q, 0, sentinel) == (if sentinel == Before(p, sentinel, i) then AtOr(p, i + 1, sentinel)
                                        else AtOr(p, 0, sentinel))
            && Before(q, sentinel, |q|) == (if sentinel == AtOr(p, i + 1, sentinel) then Before(p, sentinel, i)
                                            else Before(p, sentinel, |p|))
  {
  }

  lemma PlausibleMembers(heap: Heap, sentinel: u32, local: u32, remote: set<u32>, p: seq<u32>, i: nat)
    requires Circular(heap, sentinel, local, remote, p) && i < |p|
    ensures Plausible(p[i])
  {
    if i > 0 {
      assert heap[p[i - 1]].next == AtOr(p, i, sentinel);
    }
  }

  lemma UnlinkKeepsSentinel(heap: Heap, sentinel: u32, local: u32, remote: set<u32>, p: seq<u32>, i: nat)
    requires Circular(heap, sentinel, local, remote, p) && i < |p|
    ensures Removable(heap, p[i])
    ensures var next, q := Unlink(heap, p[i]), Without(p, i);
            && sentinel in next && next[sentinel].next == AtOr(q, 0, sentinel)
            && next[sentinel].previous == Before(q, sentinel, |q|)
            && Plausible(next[sentinel].next) && Plausible(next[sentinel].previous)
  {
    CircularFacts(heap, sentinel, local, remote, p);
    UnlinkedCells(heap, p[i], sentinel);
    SentinelNeighbours(p, sentinel, i);
    if i > 0 {
      PlausibleMembers(heap, sentinel, local, remote, p, i - 1);
    }
    assert Placed(heap, sentinel, local, remote, Plausible, p, sentinel, i);
  }

  lemma UnlinkKeepsChain(heap: Heap, sentinel: u32, local: u32, remote: set<u32>, p: seq<u32>, i: nat, next: Heap,
                         q: seq<u32>)
    requires Circular(heap, sentinel, local, remote, p) && i < |p| && q == Without(p, i)
    requires Removable(heap, p[i]) && next == Unlink(heap, p[i])
    ensures Chain(next, sentinel, local, remote, Plausible, q, sentinel)
  {
    forall k | 0 <= k < |q|
      ensures Placed(next, sentinel, local, remote, Plausible, q, sentinel, k)
    {
      if k < i {
        UnlinkKeepsNode(heap, sentinel, local, remote, p, i, k);
      } else {
        UnlinkKeepsNode(heap, sentinel, local, remote, p, i, k + 1);
      }
    }
  }

  /** A kill that unlinks exactly its node keeps the list circular. */
  lemma UnlinkKeepsCircular(heap: Heap, sentinel: u32, local: u32, remote: set<u32>, p: seq<u32>, i: nat)
    requires Circular(heap, sentinel, local, remote, p) && i < |p|
    ensures Removable(heap, p[i]) && Circular(Unlink(heap, p[i]), sentinel, local, remote, Without(p, i))
  {
    UnlinkKeepsSentinel(heap, sentinel, local, remote, p, i);
    UnlinkKeepsChain(heap, sentinel, local, remote, p, i, Unlink(heap, p[i]), Without(p, i));
  }

  // ----- the walk of one scan ---------------------------------------------------------------

  function FirstStock(p: seq<u32>, local: u32, remote: set<u32>): u32 {
    var s := Stocks(p, local, remote);
    if s == [] then 0 else s[0]
  }

  ghost predicate Walk(heap: Heap, sentinel: u32, local: u32, remote: set<u32>, walked: seq<u32>, current: u32) {
    && sentinel in heap && AtOr(walked, 0, current) == heap[sentinel].next
    && Chain(heap, sentinel, local, remote, Plausible, walked, current)
  }

  lemma WalkExtends(heap: Heap, sentinel: u32, local: u32, remote: set<u32>, walked: seq<u32>, current: u32)
    requires Walk(heap, sentinel, local, remote, walked, current) && current != sentinel
    requires NodeFits(heap, current, Before(walked, sentinel, |walked|), local, remote, Plausible)
    ensures Walk(heap, sentinel, local, remote, walked + [current], heap[current].next)
    ensures FirstStock(walked + [current], local, remote) ==
            if Stocks(walked, local, remote) == [] && IsStock(current, local, remote) then current
            else FirstStock(walked, local, remote)
  {
    ChainExtends(heap, sentinel, local, remote, Plausible, walked, current);
    StocksConcat(walked, [current], local, remote);
    assert [current][1..] == [];
  }

  lemma StoppedWalk(heap: Heap, sentinel: u32, local: u32, remote: set<u32>, maximum: nat, walked: seq<u32>,
                    current: u32, p: seq<u32>)
    requires Walk(heap, sentinel, local, remote, walked, current) && current != sentinel
    requires Accepted(heap, sentinel, local, remote, maximum, p)
    ensures |walked| < |p| && Plausible(current)
    ensures NodeFits(heap, current, Before(walked, sentinel, |walked|), local, remote, Plausible)
  {
    ChainIsPrefix(heap, sentinel, local, remote, Plausible, walked, current, p);
    assert p[|walked|] == current;
    PlausibleMembers(heap, sentinel, local, remote, p, |walked|);
  }

  lemma FinishedWalk(heap: Heap, sentinel: u32, local: u32, remote: set<u32>, maximum: nat, walked: seq<u32>)
    requires Walk(heap, sentinel, local, remote, walked, sentinel) && |walked| <= maximum
    requires Plausible(local) && local != sentinel && Plausible(sentinel)
    requires Plausible(heap[sentinel].next) && Plausible(heap[sentinel].previous)
    ensures forall p :: Accepted(heap, sentinel, local, remote, maximum, p) ==> p == walked
    ensures Accepted(heap, sentinel, local, remote, maximum, walked) <==>
            Before(walked, sentinel, |walked|) == heap[sentinel].previous && Tally(walked, local, remote).local == 1
  {
    forall p | Accepted(heap, sentinel, local, remote, maximum, p)
      ensures p == walked
    {
      ChainIsPrefix(heap, sentinel, local, remote, Plausible, walked, sentinel, p);
    }
  }

  /** The stock nodes a sanitizer kills before it meets one whose kill faults. */
  function Killable(stocks: seq<u32>, faults: set<u32>): seq<u32> {
    if stocks == [] || stocks[0] in faults then [] else [stocks[0]] + Killable(stocks[1..], faults)
  }

  // ----- the live world ---------------------------------------------------------------------

  class ActorWorld {
    var heap: Heap
    const sentinel: u32
    const local: u32
    const remote: set<u32>
    const maximum: u32
    const faults: set<u32>
    ghost var killed: seq<u32>

    /** A fault-free kill unlinks exactly its node; a faulting one changes nothing. */
    method KillPlayer(id: u32) returns (done: bool)
      requires Removable(heap, id)
      modifies this
      ensures done <==> Plausible(id) && id !in faults
      ensures heap == if done then Unlink(old(heap), id) else old(heap)
      ensures killed == if done then old(killed) + [id] else old(killed)
    {
      if !Plausible(id) || id in faults {
        return false;
      }
      heap := Unlink(heap, id);
      killed := killed + [id];
      done := true;
    }

    constructor (heap: Heap, sentinel: u32, local: u32, remote: set<u32>, maximum: u32, faults: set<u32>)
      ensures this.heap == heap && this.sentinel == sentinel && this.local == local && this.remote == remote
      ensures this.maximum == maximum && this.faults == faults && killed == []
    {
      this.heap, this.sentinel, this.local, this.remote := heap, sentinel, local, remote;
      this.maximum, this.faults, killed := maximum, faults, [];
    }

    /** The one list that passes the scan, or the empty sequence when there is none. */
    ghost function Members(): (p: seq<u32>)
      reads this
    {
      if exists p :: Accepted(heap, sentinel, local, remote, maximum, p) then
        var p :| Accepted(heap, sentinel, local, remote, maximum, p);
        p
      else []
    }

    lemma MembersExactly(p: seq<u32>)
      ensures Members() != [] ==> Accepted(heap, sentinel, local, remote, maximum, Members()) && |Members()| <= maximum
      ensures Accepted(heap, sentinel, local, remote, maximum, p) ==> Members() == p && p != []
    {
      if Accepted(heap, sentinel, local, remote, maximum, p) {
        AtMostOneList(heap, sentinel, local, remote, maximum, p, Members());
      }
    }

    /** If there is a list, a walk that has not reached the sentinel stands at its next node. */
    lemma Stopped(walked: seq<u32>, current: u32)
      requires Walk(heap, sentinel, local, remote, walked, current) && current != sentinel
      ensures Members() != [] ==>
                && |walked| < |Members()| <= maximum && Plausible(current)
                && NodeFits(heap, current, Before(walked, sentinel, |walked|), local, remote, Plausible)
    {
      MembersExactly(Members());
      if Members() != [] {
        StoppedWalk(heap, sentinel, local, remote, maximum, walked, current, Members());
      }
    }

    /** The tests of one node. */
    method CheckNode(current: u32, previous: u32) returns (fits: bool, ownership: Ownership)
      ensures fits <==> NodeFits(heap, current, previous, local, remote, Plausible)
      ensures ownership == Classify(current, local, remote)
    {
      ownership := Classify(current, local, remote);
      if current !in heap || heap[current].previous != previous || !Plausible(heap[current].next) ||
         heap[current].self != current || heap[current].actorType < 0 || heap[current].actorType >= STOCK_TYPES {
        return false, ownership;
      }
      if ownership == Local {
        fits := heap[current].actorType == 1;
      } else if ownership == RemoteOwned {
        fits := heap[current].actorType == 2;
      } else {
        fits := true;
      }
    }

    /** Succeeds exactly on well-formed lists. */
    method ScanRegistry() returns (found: bool, scan: Scan)
      ensures found <==> Members() != []
      ensures found ==>
                && scan.counts == Tally(Members(), local, remote)
                && scan.firstStock == FirstStock(Members(), local, remote)
                && (scan.firstStock == 0 <==> Stocks(Members(), local, remote) == [])
                && (scan.firstStock != 0 ==>
                      scan.firstStock in heap && scan.firstStockType == heap[scan.firstStock].actorType)
                && (scan.firstStock != 0 ==> 0 <= scan.firstStockType < STOCK_TYPES)
    {
      scan := Scan(0, -1, Summary(0, 0, 0));
      if !Plausible(sentinel) || !Plausible(local) || local == sentinel || sentinel !in heap ||
         !Plausible(heap[sentinel].next) || !Plausible(heap[sentinel].previous) {
        return false, scan;
      }
      ghost var walked: seq<u32> := [];
      var current, previous, visited := heap[sentinel].next, sentinel, 0;
      while current != sentinel
        invariant Walk(heap, sentinel, local, remote, walked, current)
        invariant visited == |walked| <= maximum && previous == Before(walked, sentinel, |walked|)
        invariant scan.counts == Tally(walked, local, remote)
        invariant scan.firstStock == FirstStock(walked, local, remote)
        invariant scan.firstStock == 0 <==> Stocks(walked, local, remote) == []
        invariant scan.firstStock != 0
                  ==> scan.firstStock in heap && scan.firstStockType == heap[scan.firstStock].actorType
        invariant scan.firstStock != 0 ==> 0 <= scan.firstStockType < STOCK_TYPES
        decreases |heap| - visited
      {
        Stopped(walked, current);
        visited := visited + 1;
        if visited > maximum || !Plausible(current) {
          return false, scan;
        }
        var fits, ownership := CheckNode(current, previous);
        if !fits {
          return false, scan;
        }
        var node := heap[current];
        TallyExtends(walked, current, local, remote);
        match ownership {
          case Local => scan := scan.(counts := scan.counts.(local := scan.counts.local + 1));
          case RemoteOwned => scan := scan.(counts := scan.counts.(remoteOwned := scan.counts.remoteOwned + 1));
          case Stock =>
            scan := scan.(counts := scan.counts.(stock := scan.counts.stock + 1));
            if scan.firstStock == 0 {
              scan := scan.(firstStock := current, firstStockType := node.actorType);
            }
        }
        WalkExtends(heap, sentinel, local, remote, walked, current);
        StocksConcat(walked, [current], local, remote);
        ChainFitsHeap(heap, sentinel, local, remote, Plausible, walked + [current], node.next);
        walked := walked + [current];
        previous := current;
        current := node.next;
      }
      FinishedWalk(heap, sentinel, local, remote, maximum, walked);
      found := previous == heap[sentinel].previous && scan.counts.local == 1;
      MembersExactly(walked);
    }

    /** One round of the sanitizer after its scan. */
    method KillFirstStock(stock: u32) returns (gone: bool)
      requires Stocks(Members(), local, remote) != [] && stock == Stocks(Members(), local, remote)[0]
      modifies this
      ensures gone <==> stock !in faults
      ensures !gone ==> killed == old(killed)
      ensures gone ==> killed == old(killed) + [stock] && 0 < |Members()| == |old(Members())| - 1
      ensures gone ==> Stocks(Members(), local, remote) == Stocks(old(Members()), local, remote)[1..]
      ensures gone ==> Kept(Members(), local, remote) == Kept(old(Members()), local, remote)
    {
      ghost var q := Members();
      MembersExactly(q);
      ghost var i := StockKillable(heap, sentinel, local, remote, maximum, q);
      gone := KillPlayer(stock);
      if gone {
        MembersExactly(Without(q, i));
        FirstStockOut(q, i, local, remote);
      }
    }

    /** On a list that passes the scan the sanitizer succeeds, within `maximum` rounds, unless the
        kill of some stock actor faults; it kills exactly the stock actors, in list order, up to the
        first faulting one, and on success the other actors remain in order. On any other list it
        fails without killing anyone. */
    method SanitizeRegistry() returns (clean: bool)
      modifies this
      ensures clean <==> old(Members()) != [] && FaultFree(Stocks(old(Members()), local, remote), faults)
      ensures clean ==> Members() == Kept(old(Members()), local, remote)
      ensures killed == old(killed) + Killable(Stocks(old(Members()), local, remote), faults)
    {
      ghost var start := Members();
      MembersExactly(start);
      ghost var now, done := start, [];
      for removed := 0 to maximum
        invariant Members() == now && killed == old(killed) + done && |start| <= maximum
        invariant if start == [] then now == [] else now != [] && |now| + removed == |start|
        invariant Progress(start, now, done, local, remote, faults)
      {
        var found, scan := ScanRegistry();
        if !found {
          return false;
        }
        if scan.firstStock == 0 {
          AllKept(now, local, remote);
          return true;
        }
        if scan.firstStockType < 0 {
          return false;
        }
        var gone := KillFirstStock(scan.firstStock);
        if !gone {
          return false;
        }
        Advanced(start, now, done, Members(), local, remote, faults);
        assert killed == old(killed) + (done + [scan.firstStock]);
        done := done + [scan.firstStock];
        now := Members();
      }
      clean := false;
    }
  }

  lemma AtMostOneList(heap: Heap, sentinel: u32, local: u32, remote: set<u32>, maximum: nat, p: seq<u32>, q: seq<u32>)
    requires Accepted(heap, sentinel, local, remote, maximum, p) && Accepted(heap, sentinel, local, remote, maximum, q)
    ensures p == q
  {
    ChainIsPrefix(heap, sentinel, local, remote, Plausible, p, sentinel, q);
    ChainIsPrefix(heap, sentinel, local, remote, Plausible, q, sentinel, p);
  }

  predicate FaultFree(stocks: seq<u32>, faults: set<u32>) { forall x :: x in stocks ==> x !in faults }

  /** After `done` kills, what the whole list asks for is `done` and what the rest asks for. */
  ghost predicate Progress(start: seq<u32>, now: seq<u32>, done: seq<u32>, local: u32, remote: set<u32>,
                           faults: set<u32>)
  {
    && Killable(Stocks(start, local, remote), faults) == done + Killable(Stocks(now, local, remote), faults)
    && (FaultFree(Stocks(start, local, remote), faults) <==> FaultFree(Stocks(now, local, remote), faults))
    && Kept(start, local, remote) == Kept(now, local, remote)
  }

  lemma Advanced(start: seq<u32>, now: seq<u32>, done: seq<u32>, next: seq<u32>, local: u32, remote: set<u32>,
                 faults: set<u32>)
    requires Progress(start, now, done, local, remote, faults) && Stocks(now, local, remote) != []
    requires Stocks(next, local, remote) == Stocks(now, local, remote)[1..]
             && Kept(next, local, remote) == Kept(now, local, remote)
    requires Stocks(now, local, remote)[0] !in faults
    ensures Progress(start, next, done + [Stocks(now, local, remote)[0]], local, remote, faults)
  {
    var stocks := Stocks(now, local, remote);
    assert stocks == [stocks[0]] + stocks[1..];
  }

  lemma {:induction false} AllKept(p: seq<u32>, local: u32, remote: set<u32>)
    requires Stocks(p, local, remote) == []
    ensures Kept(p, local, remote) == p
  {
    if p != [] {
      AllKept(p[1..], local, remote);
    }
  }

  /** The first stock node of an accepted list can be unlinked, which leaves an accepted list. */
  lemma StockKillable(heap: Heap, sentinel: u32, local: u32, remote: set<u32>, maximum: nat, q: seq<u32>)
    returns (i: nat)
    requires Accepted(heap, sentinel, local, remote, maximum, q) && Stocks(q, local, remote) != []
    ensures i < |q| && q[i] == Stocks(q, local, remote)[0] && IsStock(q[i], local, remote) && Plausible(q[i])
    ensures forall j :: 0 <= j < i ==> !IsStock(q[j], local, remote)
    ensures Removable(heap, q[i]) && Accepted(Unlink(heap, q[i]), sentinel, local, remote, maximum, Without(q, i))
  {
    i := FirstStockIndex(q, local, remote);
    PlausibleMembers(heap, sentinel, local, remote, q, i);
    UnlinkKeepsCircular(heap, sentinel, local, remote, q, i);
    FirstStockOut(q, i, local, remote);
    TallyCounts(q, local, remote);
    TallyCounts(Without(q, i), local, remote);
  }

  lemma {:induction false} FirstStockIndex(q: seq<u32>, local: u32, remote: set<u32>) returns (i: nat)
    requires Stocks(q, local, remote) != []
    ensures i < |q| && q[i] == Stocks(q, local, remote)[0] && IsStock(q[i], local, remote)
    ensures forall j :: 0 <= j < i ==> !IsStock(q[j], local, remote)
  {
    if IsStock(q[0], local, remote) {
      i := 0;
    } else {
      i := FirstStockIndex(q[1..], local, remote);
      i := i + 1;
    }
  }
}
