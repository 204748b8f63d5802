/** bridge/online_world_policy.cpp: the process-independent validator and the world lifecycle. */
module OnlineWorldPolicy {
  import opened Serial
  import opened ActorList

  datatype NodeView = NodeView(player: u32, node: Node)

  /** The first view with each id, which is the one the search finds. */
  function HeapOf(nodes: seq<NodeView>): (heap: Heap)
    ensures |heap| <= |nodes|
  {
    if nodes == [] then map[]
    else
      var rest := HeapOf(nodes[..|nodes| - 1]);
      var last := nodes[|nodes| - 1];
      if last.player in rest then rest else rest[last.player := last.node]
  }

  method FindNode(nodes: seq<NodeView>, id: u32) returns (index: nat)
    ensures index <= |nodes|
    ensures if index == |nodes| then id !in HeapOf(nodes)
            else id in HeapOf(nodes) && HeapOf(nodes)[id] == nodes[index].node
  {
    index := 0;
    while index < |nodes|
      invariant index <= |nodes| && id !in HeapOf(nodes[..index])
    {
      assert nodes[..index + 1][..index] == nodes[..index];
      if nodes[index].player == id {
        HeapKeeps(nodes, index + 1, id);
        return;
      }
      index := index + 1;
    }
    assert nodes[..index] == nodes;
  }

  lemma {:induction false} HeapKeeps(nodes: seq<NodeView>, n: nat, id: u32)
    requires n <= |nodes| && id in HeapOf(nodes[..n])
    ensures id in HeapOf(nodes) && HeapOf(nodes)[id] == HeapOf(nodes[..n])[id]
    decreases |nodes| - n
  {
    if n < |nodes| {
      assert nodes[..n + 1][..n] == nodes[..n];
      HeapKeeps(nodes, n + 1, id);
    } else {
      assert nodes[..n] == nodes;
    }
  }

  function Linked(pointer: u32): bool { pointer != 0 }

  /** `p` is the well-formed doubly linked list from `first` to `last`, with one local node. */
  predicate IsActorList(nodes: seq<NodeView>, sentinel: u32, first: u32, last: u32, local: u32, remote: set<u32>,
                        p: seq<u32>)
  {
    && p != [] && p[0] == first && p[|p| - 1] == last
    && Chain(HeapOf(nodes), sentinel, local, remote, Linked, p, sentinel)
    && Tally(p, local, remote).local == 1
  }

  predicate SaneArguments(sentinel: u32, first: u32, last: u32, local: u32, maximum: u32) {
    sentinel != 0 && first != 0 && last != 0 && local != 0 && local != sentinel && maximum != 0
  }

  /** The tests on one node. */
  method CheckNode(nodes: seq<NodeView>, current: u32, previous: u32, local: u32, remote: set<u32>)
    returns (fits: bool, next: u32, ownership: Ownership)
    ensures fits <==> NodeFits(HeapOf(nodes), current, previous, local, remote, Linked)
    ensures fits ==> next == HeapOf(nodes)[current].next
    ensures ownership == Classify(current, local, remote)
  {
    ownership := Classify(current, local, remote);
    var found := FindNode(nodes, current);
    if found == |nodes| {
      return false, 0, ownership;
    }
    var view := nodes[found].node;
    next := view.next;
    if view.previous != previous || view.next == 0 || view.self != current || view.actorType < 0 ||
       view.actorType >= STOCK_TYPES {
      return false, next, ownership;
    }
    if ownership == Local {
      fits := view.actorType == 1;
    } else if ownership == RemoteOwned {
      fits := view.actorType == 2;
    } else {
      fits := true;
    }
  }

  /** Accepts exactly the lists of at most `maximum` nodes. The loop's variant does not mention
      `maximum`: checked backlinks alone bound the walk by the size of the table. */
  method ValidateOnlineActorList(nodes: seq<NodeView>, sentinel: u32, first: u32, last: u32, local: u32,
                                 remote: set<u32>, maximum: u32) returns (accepted: bool, summary: Summary)
    ensures accepted <==>
            && SaneArguments(sentinel, first, last, local, maximum)
            && exists p :: IsActorList(nodes, sentinel, first, last, local, remote, p) && |p| <= maximum
    ensures accepted ==>
            forall p :: IsActorList(nodes, sentinel, first, last, local, remote, p)
              ==> summary == Tally(p, local, remote)
  {
    summary := Summary(0, 0, 0);
    if !SaneArguments(sentinel, first, last, local, maximum) {
      return false, summary;
    }
    ghost var walked: seq<u32> := [];
    var current, previous, visited := first, sentinel, 0;
    while current != sentinel
      invariant Walk(nodes, sentinel, local, remote, first, walked, current)
      invariant visited == |walked| <= maximum && previous == Before(walked, sentinel, |walked|)
      invariant summary == Tally(walked, local, remote)
      decreases |HeapOf(nodes)| - visited
    {
      StoppedWalk(nodes, sentinel, first, last, local, remote, walked, current);
      visited := visited + 1;
      if visited > maximum {
        return false, summary;
      }
      var fits, next, ownership := CheckNode(nodes, current, previous, local, remote);
      if !fits {
        return false, summary;
      }
      TallyExtends(walked, current, local, remote);
      match ownership {
        case Local => summary := summary.(local := summary.local + 1);
        case RemoteOwned => summary := summary.(remoteOwned := summary.remoteOwned + 1);
        case Stock => summary := summary.(stock := summary.stock + 1);
      }
      WalkExtends(nodes, sentinel, local, remote, first, walked, current);
      walked := walked + [current];
      previous := current;
      current := next;
    }
    FinishedWalk(nodes, sentinel, first, last, local, remote, walked);
    accepted := previous == last && summary.local == 1;
  }

  ghost predicate Walk(nodes: seq<NodeView>, sentinel: u32, local: u32, remote: set<u32>, first: u32, walked: seq<u32>,
                       current: u32)
  {
    Chain(HeapOf(nodes), sentinel, local, remote, Linked, walked, current) && AtOr(walked, 0, current) == first
  }

  lemma WalkExtends(nodes: seq<NodeView>, sentinel: u32, local: u32, remote: set<u32>, first: u32, walked: seq<u32>,
                    current: u32)
    requires Walk(nodes, sentinel, local, remote, first, walked, current) && current != sentinel
    requires NodeFits(HeapOf(nodes), current, Before(walked, sentinel, |walked|), local, remote, Linked)
    ensures Walk(nodes, sentinel, local, remote, first, walked + [current], HeapOf(nodes)[current].next)
    ensures |walked| < |HeapOf(nodes)|
  {
    ChainExtends(HeapOf(nodes), sentinel, local, remote, Linked, walked, current);
    ChainFitsHeap(HeapOf(nodes), sentinel, local, remote, Linked, walked + [current], HeapOf(nodes)[current].next);
  }

  /** Every list is longer than a walk that has not reached the sentinel, and its next node is the
      walk's; so there is none when that node does not fit. */
  lemma StoppedWalk(nodes: seq<NodeView>, sentinel: u32, first: u32, last: u32, local: u32, remote: set<u32>,
                    walked: seq<u32>, current: u32)
    requires Walk(nodes, sentinel, local, remote, first, walked, current) && current != sentinel
    ensures forall p :: IsActorList(nodes, sentinel, first, last, local, remote, p) ==>
              |walked| < |p| && NodeFits(HeapOf(nodes), current, Before(walked, sentinel, |walked|), local, remote,
                                         Linked)
  {
    forall p | IsActorList(nodes, sentinel, first, last, local, remote, p)
      ensures |walked| < |p| && NodeFits(HeapOf(nodes), current, Before(walked, sentinel, |walked|), local, remote,
                                         Linked)
    {
      ChainIsPrefix(HeapOf(nodes), sentinel, local, remote, Linked, walked, current, p);
      assert p[|walked|] == current;
    }
  }

  lemma FinishedWalk(nodes: seq<NodeView>, sentinel: u32, first: u32, last: u32, local: u32, remote: set<u32>,
                     walked: seq<u32>)
    requires Walk(nodes, sentinel, local, remote, first, walked, sentinel)
    requires SaneArguments(sentinel, first, last, local, 1)
    ensures forall p :: IsActorList(nodes, sentinel, first, last, local, remote, p) ==> p == walked
    ensures IsActorList(nodes, sentinel, first, last, local, remote, walked) <==>
            Before(walked, sentinel, |walked|) == last && Tally(walked, local, remote).local == 1
  {
    forall p | IsActorList(nodes, sentinel, first, last, local, remote, p)
      ensures p == walked
    {
      ChainIsPrefix(HeapOf(nodes), sentinel, local, remote, Linked, walked, sentinel, p);
    }
  }

  // ----- world lifecycle --------------------------------------------------------------------

  datatype Lifecycle = Lifecycle(ready: bool, armed: bool, generation: u32)

  datatype Event = Observe(ready: bool) | RegistryReset | BeginSanitization

  function AfterEvent(s: Lifecycle, e: Event): Lifecycle {
    match e
    case Observe(ready) =>
      if !ready then s.(ready := false, armed := true)
      else if !s.ready then Lifecycle(true, true, (s.generation + 1) % MODULUS)
      else s
    case RegistryReset => s.(ready := false, armed := true)
    case BeginSanitization => if s.ready && s.armed then s.(armed := false) else s
  }

  predicate Begins(s: Lifecycle, e: Event) { e.BeginSanitization? && s.ready && s.armed }

  class OnlineWorldLifecycle {
    var worldReady: bool
    var sanitizationArmed: bool
    var generation: u32

    ghost function Abs(): Lifecycle
      reads this
    {
      Lifecycle(worldReady, sanitizationArmed, generation)
    }

    constructor ()
      ensures Abs() == Lifecycle(false, true, 0)
    {
      worldReady, sanitizationArmed, generation := false, true, 0;
    }

    method ObserveWorldReady(ready: bool)
      modifies this
      ensures Abs() == AfterEvent(old(Abs()), Observe(ready))
    {
      if !ready {
        worldReady := false;
        sanitizationArmed := true;
        return;
      }
      if !worldReady {
        worldReady := true;
        sanitizationArmed := true;
        generation := (generation + 1) % MODULUS;
      }
    }

    method NotifyRegistryReset()
      modifies this
      ensures Abs() == AfterEvent(old(Abs()), RegistryReset)
    {
      worldReady := false;
      sanitizationArmed := true;
    }

    method BeginSanitization() returns (begun: bool)
      modifies this
      ensures begun <==> Begins(old(Abs()), Event.BeginSanitization)
      ensures Abs() == AfterEvent(old(Abs()), Event.BeginSanitization)
    {
      if !worldReady || !sanitizationArmed {
        return false;
      }
      sanitizationArmed := false;
      begun := true;
    }
  }

  function Live(events: seq<Event>): Lifecycle {
    if events == [] then Lifecycle(false, true, 0) else AfterEvent(Live(events[..|events| - 1]), events[|events| - 1])
  }

  /** Times the world became ready, and the number of that count at each sanitization begun. */
  ghost function Worlds(events: seq<Event>): nat {
    if events == [] then 0
    else
      var s, e := Live(events[..|events| - 1]), events[|events| - 1];
      Worlds(events[..|events| - 1]) + if !s.ready && AfterEvent(s, e).ready then 1 else 0
  }

  ghost function Sanitized(events: seq<Event>): seq<nat> {
    if events == [] then []
    else
      var prior := events[..|events| - 1];
      Sanitized(prior) + if Begins(Live(prior), events[|events| - 1]) then [Worlds(prior)] else []
  }

  ghost predicate OncePerWorld(s: Lifecycle, done: seq<nat>, worlds: nat) {
    && s.generation == worlds % MODULUS
    && (forall i, j :: 0 <= i < j < |done| ==> done[i] < done[j])
    && (forall i :: 0 <= i < |done| ==> 0 < done[i] <= worlds)
    && (s.ready ==> worlds > 0 && (s.armed <==> done == [] || done[|done| - 1] < worlds))
  }

  lemma EventKeepsOncePerWorld(s: Lifecycle, done: seq<nat>, worlds: nat, e: Event)
    requires OncePerWorld(s, done, worlds)
    ensures OncePerWorld(AfterEvent(s, e), done + if Begins(s, e) then [worlds] else [],
                         worlds + if !s.ready && AfterEvent(s, e).ready then 1 else 0)
  {
    IncrementReduced(worlds);
    assert done + [] == done;
  }

  /** Each world is sanitized at most once: the worlds sanitized strictly increase over every run,
      and a ready world is armed exactly until its own sanitization has begun. */
  lemma {:induction false} EachWorldSanitizedOnce(events: seq<Event>)
    ensures OncePerWorld(Live(events), Sanitized(events), Worlds(events))
  {
    if events != [] {
      var prior := events[..|events| - 1];
      EachWorldSanitizedOnce(prior);
      EventKeepsOncePerWorld(Live(prior), Sanitized(prior), Worlds(prior), events[|events| - 1]);
    }
  }
}
