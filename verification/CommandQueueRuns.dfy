/** What every run of the command queue keeps, stated against the history of operations. */
module CommandQueueRuns {
  import opened Options
  import opened Serial
  import opened CommandQueue

  datatype Op = PushState(state: Sample) | PushControl(control: Control) | Drain | Clear

  function After(q: Queue, op: Op): Queue {
    match op
    case PushState(c) => AfterState(q, c)
    case PushControl(c) => AfterControl(q, c)
    case Drain => AfterDrain(q)
    case Clear => Empty()
  }

  function Run(ops: seq<Op>): Queue {
    if ops == [] then Empty() else After(Run(ops[..|ops| - 1]), ops[|ops| - 1])
  }

  // ----- shape ------------------------------------------------------------------------------

  predicate WellFormed(f: Fifo) {
    f == FREE || (ValidIdentity(f.key) && f.last.Some? && |f.items| <= FIFO_DEPTH
                  && forall s :: s in f.items ==> s.key == f.key)
  }

  predicate Inv(q: Queue) {
    && |q.controls| <= MAXIMUM_CONTROLS && |q.fifos| == MAXIMUM_PLAYERS
    && (forall i :: 0 <= i < |q.fifos| ==> WellFormed(q.fifos[i]))
    && (forall i, j :: 0 <= i < j < |q.fifos| && q.fifos[i].key == q.fifos[j].key ==> q.fifos[i] == FREE)
  }

  lemma StepKeepsInv(q: Queue, op: Op)
    requires Inv(q)
    ensures Inv(After(q, op))
  {
    match op
    case PushState(c) =>
      if Accepted(StateResult(q, c)) {
        var slot := Target(q.fifos, c.key);
        var f := q.fifos[slot];
        assert f.key == c.key || f == FREE;
        assert WellFormed(Appended(Opened(f, c.key), c));
      }
    case _ =>
  }

  lemma {:induction false} RunKeepsInv(ops: seq<Op>)
    ensures Inv(Run(ops))
  {
    if ops != [] {
      RunKeepsInv(ops[..|ops| - 1]);
      StepKeepsInv(Run(ops[..|ops| - 1]), ops[|ops| - 1]);
    }
  }

  // ----- one player's states, from the history alone ----------------------------------------

  /** What the queue keeps for `key`; an absent key reads as an empty fifo without a horizon. */
  function At(q: Queue, key: Key): Fifo {
    var slot := Find(q.fifos, key, 0);
    if slot < |q.fifos| then q.fifos[slot] else Fifo(key, [], None)
  }

  predicate Forgets(q: Queue, op: Op, key: Key) {
    match op
    case PushState(_) => false
    case PushControl(Spawn(s)) => ControlResult(q, op.control) == Queued && s.key.player == key.player && s.key != key
    case PushControl(Despawn(k)) => ControlResult(q, op.control) == Queued && k.player == key.player
    case Drain => false
    case Clear => true
  }

  predicate Takes(q: Queue, op: Op, key: Key) {
    op.PushState? && op.state.key == key && Accepted(StateResult(q, op.state))
  }

  /** Accepted states of `key` since the last accepted despawn of its player, the last accepted
      spawn of its player under another incarnation, or the last Clear. */
  ghost function Epoch(ops: seq<Op>, key: Key): seq<Sample> {
    if ops == [] then []
    else
      var prior, op := ops[..|ops| - 1], ops[|ops| - 1];
      if Takes(Run(prior), op, key) then Epoch(prior, key) + [op.state]
      else if Forgets(Run(prior), op, key) then []
      else Epoch(prior, key)
  }

  /** As Epoch, but also cut at the last drain. */
  ghost function Pending(ops: seq<Op>, key: Key): seq<Sample> {
    if ops == [] then []
    else
      var prior, op := ops[..|ops| - 1], ops[|ops| - 1];
      if Takes(Run(prior), op, key) then Pending(prior, key) + [op.state]
      else if Forgets(Run(prior), op, key) || op == Drain then []
      else Pending(prior, key)
  }

  function Newest(s: seq<Sample>, n: nat): seq<Sample> {
    if |s| <= n then s else s[|s| - n..]
  }

  lemma FindUnique(q: Queue, key: Key, slot: nat)
    requires Inv(q) && ValidIdentity(key) && slot < |q.fifos| && q.fifos[slot].key == key
    ensures At(q, key) == q.fifos[slot]
  {
  }

  lemma AtAfterState(q: Queue, c: Sample, key: Key)
    requires Inv(q) && ValidIdentity(key) && Accepted(StateResult(q, c))
    ensures At(AfterState(q, c), key) == if c.key == key then Appended(At(q, key), c) else At(q, key)
  {
    StepKeepsInv(q, PushState(c));
    var r := AfterState(q, c);
    var slot := Target(q.fifos, c.key);
    if c.key == key {
      FindUnique(r, key, slot);
    } else {
      var own := Find(q.fifos, key, 0);
      if own < |q.fifos| {
        FindUnique(r, key, own);
      } else {
        forall i | 0 <= i < |r.fifos|
          ensures r.fifos[i].key != key
        {
        }
      }
    }
  }

  lemma AtAfterControl(q: Queue, op: Op, key: Key)
    requires Inv(q) && ValidIdentity(key) && !op.PushState?
    ensures At(After(q, op), key) ==
            if Forgets(q, op, key) then Fifo(key, [], None)
            else if op == Drain then At(q, key).(items := [])
            else At(q, key)
  {
    StepKeepsInv(q, op);
    var r := After(q, op);
    var own := Find(q.fifos, key, 0);
    if own < |q.fifos| && !Forgets(q, op, key) {
      FindUnique(r, key, own);
    } else {
      forall i | 0 <= i < |r.fifos|
        ensures r.fifos[i].key != key
      {
        assert r.fifos[i] == FREE || r.fifos[i].key == q.fifos[i].key;
      }
    }
  }

  lemma AtAfter(q: Queue, op: Op, key: Key)
    requires Inv(q) && ValidIdentity(key)
    ensures At(After(q, op), key) ==
            if Takes(q, op, key) then Appended(At(q, key), op.state)
            else if Forgets(q, op, key) then Fifo(key, [], None)
            else if op == Drain then At(q, key).(items := [])
            else At(q, key)
  {
    if !op.PushState? {
      AtAfterControl(q, op, key);
    } else if Accepted(StateResult(q, op.state)) {
      AtAfterState(q, op.state, key);
    }
  }

  /** The ring of a player and incarnation holds exactly the newest eight of its pending states;
      its horizon is the sequence number of the last state accepted in this epoch. */
  lemma {:induction false} FifoRefinesHistory(ops: seq<Op>, key: Key)
    requires ValidIdentity(key)
    ensures At(Run(ops), key).items == Newest(Pending(ops, key), FIFO_DEPTH)
    ensures At(Run(ops), key).last == var e := Epoch(ops, key); if e == [] then None else Some(e[|e| - 1].sequence)
  {
    if ops != [] {
      var prior, op := ops[..|ops| - 1], ops[|ops| - 1];
      FifoRefinesHistory(prior, key);
      RunKeepsInv(prior);
      AtAfter(Run(prior), op, key);
    }
  }

  /** The players and incarnations that own a fifo. */
  function LiveKeys(fifos: seq<Fifo>): set<Key> {
    if fifos == [] then {}
    else
      var f := fifos[|fifos| - 1];
      LiveKeys(fifos[..|fifos| - 1]) + if f == FREE then {} else {f.key}
  }

  lemma {:induction false} LiveKeysMember(fifos: seq<Fifo>, k: Key)
    requires forall i :: 0 <= i < |fifos| ==> WellFormed(fifos[i])
    requires ValidIdentity(k)
    ensures k in LiveKeys(fifos) <==> Find(fifos, k, 0) < |fifos|
  {
    if fifos != [] {
      var n := |fifos| - 1;
      var init := fifos[..n];
      LiveKeysMember(init, k);
      var slot := Find(init, k, 0);
      assert forall i :: 0 <= i < n ==> init[i] == fifos[i];
      if slot < n {
        assert fifos[slot].key == k;
      }
    }
  }

  lemma {:induction false} LiveKeysCount(fifos: seq<Fifo>)
    requires forall i :: 0 <= i < |fifos| ==> WellFormed(fifos[i])
    requires forall i, j :: 0 <= i < j < |fifos| && fifos[i].key == fifos[j].key ==> fifos[i] == FREE
    ensures |LiveKeys(fifos)| <= |fifos|
    ensures |LiveKeys(fifos)| == |fifos| <==> forall i :: 0 <= i < |fifos| ==> fifos[i] != FREE
  {
    if fifos != [] {
      var n := |fifos| - 1;
      var init := fifos[..n];
      LiveKeysCount(init);
      assert forall i :: 0 <= i < n ==> init[i] == fifos[i];
      if fifos[n] != FREE {
        LiveKeysMember(init, fifos[n].key);
        assert fifos[n].key !in LiveKeys(init);
      }
    }
  }

  /** The answer to a pushed state, from the history: the only reason for Overflow is that seven
      other players or incarnations own a fifo. */
  lemma StateResultFromHistory(ops: seq<Op>, c: Sample)
    ensures var e, live := Epoch(ops, c.key), LiveKeys(Run(ops).fifos);
            StateResult(Run(ops), c) ==
            if !ValidState(c) then Invalid
            else if e == [] && |live| == MAXIMUM_PLAYERS then Overflow
            else if e != [] && !Newer(c.sequence, e[|e| - 1].sequence) then Stale
            else if |Pending(ops, c.key)| >= FIFO_DEPTH then DroppedOldest
            else Queued
    ensures forall key: Key :: ValidIdentity(key) ==> (key in LiveKeys(Run(ops).fifos) <==> Epoch(ops, key) != [])
  {
    RunKeepsInv(ops);
    var q := Run(ops);
    LiveKeysCount(q.fifos);
    forall key: Key | ValidIdentity(key)
      ensures key in LiveKeys(q.fifos) <==> Epoch(ops, key) != []
    {
      FifoRefinesHistory(ops, key);
      LiveKeysMember(q.fifos, key);
    }
    if ValidState(c) {
      FifoRefinesHistory(ops, c.key);
    }
  }

  // ----- order of acceptance ----------------------------------------------------------------

  function Sequences(states: seq<Sample>): (r: seq<u32>)
    ensures |r| == |states|
  {
    seq(|states|, i requires 0 <= i < |states| => states[i].sequence)
  }

  /** Within an epoch the accepted states strictly increase in unwrapped sequence number. */
  lemma {:induction false} EpochIncreases(ops: seq<Op>, key: Key)
    requires ValidIdentity(key)
    ensures Ascending(Sequences(Epoch(ops, key)))
  {
    if ops != [] {
      var prior, op := ops[..|ops| - 1], ops[|ops| - 1];
      EpochIncreases(prior, key);
      FifoRefinesHistory(prior, key);
      if Takes(Run(prior), op, key) {
        RunKeepsInv(prior);
        AcceptedIsNewer(Run(prior), op.state);
        AscendingExtends(Sequences(Epoch(prior, key)), op.state.sequence);
        assert Sequences(Epoch(ops, key)) == Sequences(Epoch(prior, key)) + [op.state.sequence];
      }
    }
  }

  lemma AcceptedIsNewer(q: Queue, c: Sample)
    requires Inv(q) && Accepted(StateResult(q, c))
    ensures At(q, c.key).last.Some? ==> Newer(c.sequence, At(q, c.key).last.value)
  {
  }

  // ----- draining ---------------------------------------------------------------------------

  function Of(states: seq<Sample>, key: Key): seq<Sample> {
    if states == [] then []
    else
      var n := |states| - 1;
      Of(states[..n], key) + if states[n].key == key then [states[n]] else []
  }

  lemma {:induction false} OfConcat(a: seq<Sample>, b: seq<Sample>, key: Key)
    ensures Of(a + b, key) == Of(a, key) + Of(b, key)
  {
    if b == [] {
      assert a + b == a;
    } else {
      OfConcat(a, b[..|b| - 1], key);
      assert (a + b)[..|a + b| - 1] == a + b[..|b| - 1];
    }
  }

  lemma {:induction false} OfUniform(s: seq<Sample>, key: Key, owner: Key)
    requires forall x :: x in s ==> x.key == owner
    ensures Of(s, key) == if owner == key then s else []
  {
    if s != [] {
      OfUniform(s[..|s| - 1], key, owner);
    }
  }

  /** Only the fifo at `slot` contributes states of `key`; a `slot` past the end means none does. */
  lemma {:induction false} OfFlatten(fifos: seq<Fifo>, key: Key, slot: nat)
    requires ValidIdentity(key)
    requires forall i :: 0 <= i < |fifos| ==> WellFormed(fifos[i])
    requires forall i :: 0 <= i < |fifos| ==> (fifos[i].key == key <==> i == slot)
    ensures Of(Flatten(fifos), key) == if slot < |fifos| then fifos[slot].items else []
  {
    if fifos != [] {
      var n := |fifos| - 1;
      var f := fifos[n];
      OfFlatten(fifos[..n], key, slot);
      OfConcat(Flatten(fifos[..n]), f.items, key);
      OfUniform(f.items, key, f.key);
    }
  }

  lemma {:induction false} FlattenBounded(fifos: seq<Fifo>)
    requires forall i :: 0 <= i < |fifos| ==> WellFormed(fifos[i])
    ensures |Flatten(fifos)| <= |fifos| * FIFO_DEPTH
    ensures forall s :: s in Flatten(fifos) ==> ValidIdentity(s.key)
  {
    if fifos != [] {
      FlattenBounded(fifos[..|fifos| - 1]);
    }
  }

  /** Accepted controls since the last drain or Clear, in order. */
  ghost function PendingControls(ops: seq<Op>): seq<Control> {
    if ops == [] then []
    else
      var prior, op := ops[..|ops| - 1], ops[|ops| - 1];
      match op
      case PushControl(c) => PendingControls(prior) + if ControlResult(Run(prior), c) == Queued then [c] else []
      case PushState(_) => PendingControls(prior)
      case _ => []
  }

  lemma {:induction false} ControlsRefineHistory(ops: seq<Op>)
    ensures Run(ops).controls == PendingControls(ops)
  {
    if ops != [] {
      ControlsRefineHistory(ops[..|ops| - 1]);
    }
  }

  /** A drain emits every accepted control once and in order and, for every player and incarnation,
      exactly the newest eight states accepted since the last drain and since the player's last
      accepted despawn, in acceptance order; the 32 and 56 entry arrays of the batch suffice. */
  lemma DrainEmitsPending(ops: seq<Op>)
    ensures var b := DrainBatch(Run(ops));
            && b.controls == PendingControls(ops) && |b.controls| <= MAXIMUM_CONTROLS
            && |b.states| <= MAXIMUM_PLAYERS * FIFO_DEPTH
            && (forall s :: s in b.states ==> ValidIdentity(s.key))
            && (forall key: Key :: ValidIdentity(key) ==> Of(b.states, key) == Newest(Pending(ops, key), FIFO_DEPTH))
  {
    RunKeepsInv(ops);
    ControlsRefineHistory(ops);
    var q := Run(ops);
    FlattenBounded(q.fifos);
    forall key: Key | ValidIdentity(key)
      ensures Of(DrainBatch(q).states, key) == Newest(Pending(ops, key), FIFO_DEPTH)
    {
      OfFlatten(q.fifos, key, Find(q.fifos, key, 0));
      FifoRefinesHistory(ops, key);
    }
  }

  // ----- conservation -----------------------------------------------------------------------

  function Count(states: seq<Sample>, x: Sample): nat {
    if states == [] then 0
    else Count(states[..|states| - 1], x) + if states[|states| - 1] == x then 1 else 0
  }

  function Stock(fifos: seq<Fifo>, x: Sample): nat {
    if fifos == [] then 0 else Stock(fifos[..|fifos| - 1], x) + Count(fifos[|fifos| - 1].items, x)
  }

  /** Where the occurrences of one state `x` went; `overwritten` counts every state lost to a full
      ring since the last Clear. */
  datatype Ledger = Ledger(accepted: nat, drained: nat, dropped: nat, purged: nat, overwritten: nat)

  function Removed(fifos: seq<Fifo>, kept: seq<Fifo>): (r: seq<Fifo>)
    ensures |r| == |fifos|
  {
    seq(|fifos|, i requires 0 <= i < |fifos| => if i < |kept| && kept[i] == fifos[i] then FREE else fifos[i])
  }

  function Booked(b: Ledger, q: Queue, op: Op, x: Sample): Ledger {
    match op
    case PushState(c) =>
      var r, full := StateResult(q, c), At(q, c.key).items;
      if !Accepted(r) then b
      else
        b.(accepted := b.accepted + Count([c], x),
           dropped := b.dropped + if r == DroppedOldest && full != [] then Count([full[0]], x) else 0,
           overwritten := b.overwritten + if r == DroppedOldest then 1 else 0)
    case PushControl(c) => b.(purged := b.purged + Stock(Removed(q.fifos, AfterControl(q, c).fifos), x))
    case Drain => b.(drained := b.drained + Count(DrainBatch(q).states, x))
    case Clear => b.(purged := b.purged + Stock(q.fifos, x), overwritten := 0)
  }

  function Book(ops: seq<Op>, x: Sample): Ledger {
    if ops == [] then Ledger(0, 0, 0, 0, 0)
    else Booked(Book(ops[..|ops| - 1], x), Run(ops[..|ops| - 1]), ops[|ops| - 1], x)
  }

  lemma {:induction false} CountConcat(a: seq<Sample>, b: seq<Sample>, x: Sample)
    ensures Count(a + b, x) == Count(a, x) + Count(b, x)
  {
    if b == [] {
      assert a + b == a;
    } else {
      assert (a + b)[..|a + b| - 1] == a + b[..|b| - 1];
      CountConcat(a, b[..|b| - 1], x);
    }
  }

  lemma {:induction false} StockIsFlattened(fifos: seq<Fifo>, x: Sample)
    ensures Stock(fifos, x) == Count(Flatten(fifos), x)
  {
    if fifos != [] {
      StockIsFlattened(fifos[..|fifos| - 1], x);
      CountConcat(Flatten(fifos[..|fifos| - 1]), fifos[|fifos| - 1].items, x);
    }
  }

  lemma {:induction false} StockUpdate(fifos: seq<Fifo>, k: nat, f: Fifo, x: Sample)
    requires k < |fifos|
    ensures Stock(fifos[k := f], x) == Stock(fifos, x) - Count(fifos[k].items, x) + Count(f.items, x)
  {
    var n := |fifos| - 1;
    var updated := fifos[k := f];
    if k == n {
      assert updated[..n] == fifos[..n];
    } else {
      assert updated[..n] == fifos[..n][k := f] && updated[n] == fifos[n];
      StockUpdate(fifos[..n], k, f, x);
    }
  }

  lemma {:induction false} StockSplit(fifos: seq<Fifo>, kept: seq<Fifo>, x: Sample)
    requires |fifos| == |kept| && forall i :: 0 <= i < |fifos| ==> kept[i] == fifos[i] || kept[i] == FREE
    ensures Stock(fifos, x) == Stock(kept, x) + Stock(Removed(fifos, kept), x)
  {
    if fifos != [] {
      var n := |fifos| - 1;
      StockSplit(fifos[..n], kept[..n], x);
      assert Removed(fifos, kept)[..n] == Removed(fifos[..n], kept[..n]);
    }
  }

  lemma {:induction false} StockEmpty(fifos: seq<Fifo>, x: Sample)
    requires forall i :: 0 <= i < |fifos| ==> fifos[i].items == []
    ensures Stock(fifos, x) == 0
  {
    if fifos != [] {
      StockEmpty(fifos[..|fifos| - 1], x);
    }
  }

  lemma CountAppended(f: Fifo, c: Sample, x: Sample)
    ensures Count(Appended(f, c).items, x) ==
            Count(f.items, x) + Count([c], x) - if |f.items| == FIFO_DEPTH then Count([f.items[0]], x) else 0
  {
    if |f.items| == FIFO_DEPTH {
      assert f.items == [f.items[0]] + f.items[1..];
      CountConcat([f.items[0]], f.items[1..], x);
      CountConcat(f.items[1..], [c], x);
    } else {
      CountConcat(f.items, [c], x);
    }
  }

  predicate Balanced(b: Ledger, q: Queue, x: Sample) {
    && b.accepted == b.drained + b.dropped + b.purged + Stock(q.fifos, x)
    && q.dropped == b.overwritten % MODULUS
  }

  lemma StockAfterState(q: Queue, c: Sample, x: Sample)
    requires Inv(q) && Accepted(StateResult(q, c))
    ensures StateResult(q, c) == DroppedOldest <==> |At(q, c.key).items| == FIFO_DEPTH
    ensures var full := At(q, c.key).items;
            Stock(AfterState(q, c).fifos, x) ==
            Stock(q.fifos, x) + Count([c], x) - if |full| == FIFO_DEPTH then Count([full[0]], x) else 0
  {
    var slot := Target(q.fifos, c.key);
    var f := Opened(q.fifos[slot], c.key);
    assert f.items == q.fifos[slot].items == At(q, c.key).items;
    StockUpdate(q.fifos, slot, Appended(f, c), x);
    CountAppended(f, c, x);
  }

  lemma StateKeepsBalance(b: Ledger, q: Queue, c: Sample, x: Sample)
    requires Inv(q) && Balanced(b, q, x) && Accepted(StateResult(q, c))
    ensures Balanced(Booked(b, q, PushState(c), x), AfterState(q, c), x)
  {
    StockAfterState(q, c, x);
    IncrementReduced(b.overwritten);
  }

  lemma StepKeepsBalance(b: Ledger, q: Queue, op: Op, x: Sample)
    requires Inv(q) && Balanced(b, q, x)
    ensures Balanced(Booked(b, q, op, x), After(q, op), x)
  {
    match op
    case PushState(c) =>
      if Accepted(StateResult(q, c)) {
        StateKeepsBalance(b, q, c, x);
      }
    case PushControl(c) => StockSplit(q.fifos, AfterControl(q, c).fifos, x);
    case Drain =>
      StockIsFlattened(q.fifos, x);
      StockEmpty(AfterDrain(q).fifos, x);
    case Clear => StockEmpty(Empty().fifos, x);
  }

  /** After every run, every state was accepted as often as it was drained, dropped, purged and is
      still buffered; the counter reported with a batch is the number of states dropped since the
      last Clear, modulo 2^32. */
  lemma {:induction false} StatesAreConserved(ops: seq<Op>, x: Sample)
    ensures Balanced(Book(ops, x), Run(ops), x)
  {
    if ops == [] {
      StockEmpty(Empty().fifos, x);
    } else {
      StatesAreConserved(ops[..|ops| - 1], x);
      RunKeepsInv(ops[..|ops| - 1]);
      StepKeepsBalance(Book(ops[..|ops| - 1], x), Run(ops[..|ops| - 1]), ops[|ops| - 1], x);
    }
  }
}
