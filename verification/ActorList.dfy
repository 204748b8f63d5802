/** The game's intrusive actor list: nodes named by id, doubly linked through a sentinel. */
module ActorList {
  import opened Serial

  const STOCK_TYPES := 10

  datatype Node = Node(next: u32, previous: u32, self: u32, actorType: int)

  type Heap = map<u32, Node>

  datatype Ownership = Local | RemoteOwned | Stock

  datatype Summary = Summary(local: nat, remoteOwned: nat, stock: nat)

  function Classify(player: u32, local: u32, remote: set<u32>): Ownership {
    if player == local then Local else if player in remote then RemoteOwned else Stock
  }

  /** Local players are actors of type 1, remote-owned ones of type 2, stock ones of any known type. */
  predicate TypeFits(actorType: int, owner: Ownership) {
    0 <= actorType < STOCK_TYPES && (owner == Local ==> actorType == 1) && (owner == RemoteOwned ==> actorType == 2)
  }

  /** The tests both validators put to a node; `link` is their test of a forward pointer. */
  predicate NodeFits(heap: Heap, id: u32, previous: u32, local: u32, remote: set<u32>, link: u32 -> bool) {
    && id in heap && heap[id].previous == previous && heap[id].self == id && link(heap[id].next)
    && TypeFits(heap[id].actorType, Classify(id, local, remote))
  }

  function Before(p: seq<u32>, sentinel: u32, i: nat): u32
    requires i <= |p|
  {
    if i == 0 then sentinel else p[i - 1]
  }

  function AtOr(p: seq<u32>, i: nat, end: u32): u32 { if i < |p| then p[i] else end }

  predicate Placed(heap: Heap, sentinel: u32, local: u32, remote: set<u32>, link: u32 -> bool, p: seq<u32>, end: u32,
                   i: nat)
    requires i < |p|
  {
    && p[i] != sentinel
    && NodeFits(heap, p[i], Before(p, sentinel, i), local, remote, link)
    && heap[p[i]].next == AtOr(p, i + 1, end)
  }

  /** `p` is walked from the sentinel by forward pointers, each node fits, and `end` comes next. */
  predicate Chain(heap: Heap, sentinel: u32, local: u32, remote: set<u32>, link: u32 -> bool, p: seq<u32>, end: u32) {
    forall i {:trigger p[i]} {:trigger Placed(heap, sentinel, local, remote, link, p, end, i)} :: 0 <= i < |p| ==>
      Placed(heap, sentinel, local, remote, link, p, end, i)
  }

  /** Checked backlinks exclude cycles: the nodes of a chain are pairwise distinct. */
  lemma {:induction false} BacklinksExcludeCycles(
    heap: Heap, sentinel: u32, local: u32, remote: set<u32>, link: u32 -> bool, p: seq<u32>, end: u32, i: nat, j: nat)
    requires Chain(heap, sentinel, local, remote, link, p, end) && i < j < |p|
    ensures p[i] != p[j]
  {
    assert heap[p[i]].previous == Before(p, sentinel, i) && heap[p[j]].previous == p[j - 1];
    if i > 0 {
      BacklinksExcludeCycles(heap, sentinel, local, remote, link, p, end, i - 1, j - 1);
    } else {
      assert p[j - 1] != sentinel;
    }
  }

  lemma {:induction false} DistinctBound(p: seq<u32>, ids: set<u32>)
    requires forall i, j :: 0 <= i < j < |p| ==> p[i] != p[j]
    requires forall x :: x in p ==> x in ids
    ensures |p| <= |ids|
  {
    if p != [] {
      var x := p[|p| - 1];
      DistinctBound(p[..|p| - 1], ids - {x});
    }
  }

  /** A chain is no longer than the table it is read from, whatever bound the caller gave. */
  lemma ChainFitsHeap(heap: Heap, sentinel: u32, local: u32, remote: set<u32>, link: u32 -> bool, p: seq<u32>, end: u32)
    requires Chain(heap, sentinel, local, remote, link, p, end)
    ensures |p| <= |heap|
  {
    forall i, j | 0 <= i < j < |p|
      ensures p[i] != p[j]
    {
      BacklinksExcludeCycles(heap, sentinel, local, remote, link, p, end, i, j);
    }
    DistinctBound(p, heap.Keys);
  }

  lemma ChainExtends(heap: Heap, sentinel: u32, local: u32, remote: set<u32>, link: u32 -> bool, p: seq<u32>, end: u32)
    requires Chain(heap, sentinel, local, remote, link, p, end) && end != sentinel
    requires NodeFits(heap, end, Before(p, sentinel, |p|), local, remote, link)
    ensures Chain(heap, sentinel, local, remote, link, p + [end], heap[end].next)
  {
    var q := p + [end];
    forall i | 0 <= i < |q|
      ensures Placed(heap, sentinel, local, remote, link, q, heap[end].next, i)
    {
      if i < |p| {
        assert Placed(heap, sentinel, local, remote, link, p, end, i);
      }
    }
  }

  /** A chain that has not reached the sentinel is a proper prefix of any complete one with the same
      start, so a walk that cannot go on proves that there is no complete chain. */
  lemma {:induction false} ChainIsPrefix(
    heap: Heap, sentinel: u32, local: u32, remote: set<u32>, link: u32 -> bool, p: seq<u32>, end: u32, full: seq<u32>)
    requires Chain(heap, sentinel, local, remote, link, p, end)
             && Chain(heap, sentinel, local, remote, link, full, sentinel)
    requires AtOr(p, 0, end) == AtOr(full, 0, sentinel)
    ensures |p| <= |full| && p == full[..|p|] && end == AtOr(full, |p|, sentinel)
  {
    if p != [] {
      var n := |p| - 1;
      ChainShrinks(heap, sentinel, local, remote, link, p, end);
      ChainIsPrefix(heap, sentinel, local, remote, link, p[..n], p[n], full);
      assert p == p[..n] + [p[n]];
    }
  }

  lemma ChainShrinks(heap: Heap, sentinel: u32, local: u32, remote: set<u32>, link: u32 -> bool, p: seq<u32>, end: u32)
    requires Chain(heap, sentinel, local, remote, link, p, end) && p != []
    ensures Chain(heap, sentinel, local, remote, link, p[..|p| - 1], p[|p| - 1])
  {
    var q := p[..|p| - 1];
    forall i {:trigger Placed(heap, sentinel, local, remote, link, q, p[|p| - 1], i)} | 0 <= i < |q|
      ensures Placed(heap, sentinel, local, remote, link, q, p[|p| - 1], i)
    {
      assert Placed(heap, sentinel, local, remote, link, p, end, i);
    }
  }

  function Tally(p: seq<u32>, local: u32, remote: set<u32>): (s: Summary)
    ensures s.local + s.remoteOwned + s.stock == |p|
  {
    if p == [] then Summary(0, 0, 0)
    else
      var s := Tally(p[..|p| - 1], local, remote);
      match Classify(p[|p| - 1], local, remote)
      case Local => s.(local := s.local + 1)
      case RemoteOwned => s.(remoteOwned := s.remoteOwned + 1)
      case Stock => s.(stock := s.stock + 1)
  }

  lemma TallyExtends(p: seq<u32>, id: u32, local: u32, remote: set<u32>)
    ensures Tally(p + [id], local, remote) ==
            var s := Tally(p, local, remote);
            match Classify(id, local, remote)
            case Local => s.(local := s.local + 1)
            case RemoteOwned => s.(remoteOwned := s.remoteOwned + 1)
            case Stock => s.(stock := s.stock + 1)
  {
    assert (p + [id])[..|p|] == p;
  }
}
