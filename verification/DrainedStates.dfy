/** The states of the command queue as the slots take them: bridge/remote_command_queue.cpp feeding
    bridge/remote_actor_backend.cpp. Both compare sequence numbers, the queue with the state accepted
    before, the slot with the one it holds. */
module DrainedStates {
  import opened Options
  import opened Serial
  import opened CommandQueue
  import opened CommandQueueRuns
  import B = ActorBackend

  type Slots = seq<B.RemoteSlot>

  // ----- one slot ---------------------------------------------------------------------------

  predicate Seats(slots: Slots, key: Key) { B.FindKey(slots, key, 0) < |slots| }

  /** The state that the slot of `key` holds. */
  function LastOf(slots: Slots, key: Key): Option<Sample> {
    var i := B.FindKey(slots, key, 0);
    if i < |slots| && slots[i].hasState then Some(slots[i].state) else None
  }

  predicate Outdated(last: Option<Sample>, s: Sample) { last.Some? && !Newer(s.sequence, last.value.sequence) }

  /** What a slot holds after states of its own. */
  function Taken(last: Option<Sample>, states: seq<Sample>): Option<Sample> {
    if states == [] then last
    else
      var before, s := Taken(last, states[..|states| - 1]), states[|states| - 1];
      if Outdated(before, s) then before else Some(s)
  }

  predicate NoneIgnored(last: Option<Sample>, states: seq<Sample>) {
    states != [] ==>
      var prior := states[..|states| - 1];
      NoneIgnored(last, prior) && !Outdated(Taken(last, prior), states[|states| - 1])
  }

  predicate Fits(slots: Slots, key: Key, s: Sample) {
    var i := B.FindKey(slots, key, 0);
    i < |slots| && s.key == key ==> s.vehicle == slots[i].vehicleType && s.paint == slots[i].paint
  }

  predicate AllFit(slots: Slots, key: Key, states: seq<Sample>) { forall s :: s in states ==> Fits(slots, key, s) }

  lemma StateIsTaken(slots: Slots, s: Sample, key: Key)
    requires Fits(slots, key, s)
    ensures var after, i := B.AfterState(slots, s), B.FindKey(slots, key, 0);
            && B.FindKey(after, key, 0) == i
            && (i < |slots| ==> after[i].vehicleType == slots[i].vehicleType && after[i].paint == slots[i].paint)
            && LastOf(after, key) == if Seats(slots, key) && s.key == key
               && !Outdated(LastOf(slots, key), s) then Some(s)
                                     else LastOf(slots, key)
  {
    var after, i := B.AfterState(slots, s), B.FindKey(slots, key, 0);
    assert forall j :: 0 <= j < |slots| ==> after[j].occupied == slots[j].occupied && after[j].key == slots[j].key;
  }

  /** A batch changes the slot of `key` by the batch's states of `key` alone. */
  lemma {:induction false} StatesAreTaken(slots: Slots, states: seq<Sample>, key: Key)
    requires AllFit(slots, key, states)
    ensures var after, i := B.AfterStates(slots, states), B.FindKey(slots, key, 0);
            && B.FindKey(after, key, 0) == i
            && (i < |slots| ==> after[i].vehicleType == slots[i].vehicleType && after[i].paint == slots[i].paint)
            && LastOf(after, key) == if Seats(slots, key) then Taken(LastOf(slots, key), Of(states, key)) else None
  {
    if states != [] {
      var prior, s := states[..|states| - 1], states[|states| - 1];
      StatesAreTaken(slots, prior, key);
      assert Fits(slots, key, s);
      StateIsTaken(B.AfterStates(slots, prior), s, key);
      if s.key == key {
        assert Of(states, key)[..|Of(prior, key)|] == Of(prior, key);
      } else {
        assert Of(states, key) == Of(prior, key);
      }
    }
  }

  /** Each state is newer than the one before it. */
  ghost predicate Chained(states: seq<Sample>) {
    forall i :: 0 < i < |states| ==> Newer(states[i].sequence, states[i - 1].sequence)
  }

  /** Of a chain the slot takes everything, up to its last state, exactly when it takes the first. */
  lemma {:induction false} ChainIsTaken(last: Option<Sample>, states: seq<Sample>)
    requires Chained(states) && states != []
    ensures NoneIgnored(last, states) <==> !Outdated(last, states[0])
    ensures NoneIgnored(last, states) ==> Taken(last, states) == Some(states[|states| - 1])
  {
    if |states| > 1 {
      ChainIsTaken(last, states[..|states| - 1]);
    } else {
      assert states[..0] == [];
    }
  }

  // ----- the states of one epoch ------------------------------------------------------------

  lemma {:induction false} EpochIsChained(ops: seq<Op>, key: Key)
    requires ValidIdentity(key)
    ensures Chained(Epoch(ops, key))
  {
    if ops != [] {
      var prior, op := ops[..|ops| - 1], ops[|ops| - 1];
      EpochIsChained(prior, key);
      if Takes(Run(prior), op, key) {
        FifoRefinesHistory(prior, key);
        RunKeepsInv(prior);
        AcceptedIsNewer(Run(prior), op.state);
      }
    }
  }

  lemma {:induction false} PendingIsSuffix(ops: seq<Op>, key: Key)
    ensures |Pending(ops, key)| <= |Epoch(ops, key)|
    ensures Pending(ops, key) == Epoch(ops, key)[|Epoch(ops, key)| - |Pending(ops, key)|..]
  {
    if ops != [] {
      PendingIsSuffix(ops[..|ops| - 1], key);
    }
  }

  /** The states of the epoch up to the last drain. */
  ghost function Drained(ops: seq<Op>, key: Key): seq<Sample> {
    PendingIsSuffix(ops, key);
    Epoch(ops, key)[..|Epoch(ops, key)| - |Pending(ops, key)|]
  }

  ghost function DrainedNext(ops: seq<Op>, key: Key): seq<Sample> { Newest(Pending(ops, key), FIFO_DEPTH) }

  /** The first state that the next drain emits is newer than the last one before the last drain. */
  ghost predicate Continues(ops: seq<Op>, key: Key) {
    var done, next := Drained(ops, key), DrainedNext(ops, key);
    done != [] && next != [] ==> Newer(next[0].sequence, done[|done| - 1].sequence)
  }

  lemma NextIsChained(ops: seq<Op>, key: Key)
    requires ValidIdentity(key)
    ensures Chained(DrainedNext(ops, key))
  {
    EpochIsChained(ops, key);
    PendingIsSuffix(ops, key);
    var e, p, next := Epoch(ops, key), Pending(ops, key), DrainedNext(ops, key);
    var from := |e| - |next|;
    forall i | 0 < i < |next|
      ensures Newer(next[i].sequence, next[i - 1].sequence)
    {
      assert next[i] == e[from + i] && next[i - 1] == e[from + i - 1];
    }
  }

  lemma UnwrappedDecides(e: seq<Sample>, u: seq<int>, j: nat, i: nat)
    requires Ascending(Sequences(e)) && u == UnwrapAll(Sequences(e)) && j < i < |e|
    ensures u[j] < u[i] && (Newer(e[i].sequence, e[j].sequence) <==> 0 < (u[i] - u[j]) % MODULUS < HALF)
  {
    assert Sequences(e)[i] == e[i].sequence && Sequences(e)[j] == e[j].sequence;
    ReduceDifference(u[i], u[j]);
  }

  lemma EpochParts(ops: seq<Op>, key: Key, e: seq<Sample>, done: nat, from: nat)
    requires e == Epoch(ops, key) && done == |Drained(ops, key)| && from == |e| - |DrainedNext(ops, key)|
    ensures done <= from <= |e| && (|Pending(ops, key)| <= FIFO_DEPTH ==> from == done)
    ensures Drained(ops, key) == e[..done] && DrainedNext(ops, key) == e[from..]
  {
    PendingIsSuffix(ops, key);
  }

  /** It always is while the ring has dropped nothing since the last drain; otherwise as long as the states
      dropped have not moved the unwrapped number on by half the number space, modulo the whole. */
  lemma ContinuesExactly(ops: seq<Op>, key: Key, e: seq<Sample>, u: seq<int>, done: nat, from: nat)
    requires ValidIdentity(key) && e == Epoch(ops, key) && u == UnwrapAll(Sequences(e))
    requires done == |Drained(ops, key)| && from == |e| - |DrainedNext(ops, key)|
    ensures done <= from && (|Pending(ops, key)| <= FIFO_DEPTH ==> from == done)
    ensures 0 < done && from < |e| ==>
              && u[done - 1] < u[from]
              && (Continues(ops, key) <==> 0 < (u[from] - u[done - 1]) % MODULUS < HALF)
    ensures from == done || from == |e| ==> Continues(ops, key)
  {
    EpochParts(ops, key, e, done, from);
    if 0 < done && from < |e| {
      EpochIncreases(ops, key);
      UnwrappedDecides(e, u, done - 1, from);
      assert DrainedNext(ops, key)[0] == e[from] && Drained(ops, key)[done - 1] == e[done - 1];
      EpochIsChained(ops, key);
    }
  }

  // ----- controls ---------------------------------------------------------------------------

  ghost predicate OnePerPlayer(slots: Slots) {
    forall i, j {:trigger slots[i], slots[j]} :: 0 <= i < j < |slots| && slots[i].occupied && slots[j].occupied ==>
                                                   slots[i].key.player != slots[j].key.player
  }

  /** The control ends the epoch of `key` when the queue accepts it. */
  predicate Ends(c: Control, key: Key) {
    match c
    case Spawn(s) => s.key.player == key.player && s.key != key
    case Despawn(k) => k.player == key.player
  }

  /** A despawn of an incarnation of the player that is not the seated one. */
  predicate Foreign(slots: Slots, c: Control, key: Key) {
    c.Despawn? && c.key.player == key.player && c.key != key && Seats(slots, key)
  }

  lemma EvictionKeepsLast(slots: Slots, c: Key, key: Key)
    requires OnePerPlayer(slots)
    ensures var rest := B.Evicted(slots, c);
            && OnePerPlayer(rest)
            && (forall i :: 0 <= i < |rest| && rest[i].occupied && rest[i].key.player == c.player ==> rest[i].key == c)
            && LastOf(rest, key) == if c.player == key.player && c != key then None else LastOf(slots, key)
  {
    var rest, own := B.Evicted(slots, c), B.FindKey(slots, key, 0);
    if own < |slots| && !(c.player == key.player && c != key) {
      assert rest[own] == slots[own];
    }
  }

  lemma SpawnKeepsLast(slots: Slots, c: SpawnCommand, key: Key)
    requires OnePerPlayer(slots)
    ensures OnePerPlayer(B.AfterSpawn(slots, c))
    ensures LastOf(B.AfterSpawn(slots, c), key) == if Ends(Spawn(c), key) then None else LastOf(slots, key)
  {
    EvictionKeepsLast(slots, c.key, key);
    var rest, after := B.Evicted(slots, c.key), B.AfterSpawn(slots, c);
    var own := B.FindKey(rest, key, 0);
    if own < |rest| {
      assert after[own] == rest[own];
    }
  }

  lemma DespawnKeepsLast(slots: Slots, k: Key, key: Key)
    requires OnePerPlayer(slots) && !Foreign(slots, Despawn(k), key)
    ensures OnePerPlayer(B.AfterDespawn(slots, k))
    ensures LastOf(B.AfterDespawn(slots, k), key) == if Ends(Despawn(k), key) then None else LastOf(slots, key)
  {
    var after, own := B.AfterDespawn(slots, k), B.FindKey(slots, key, 0);
    if own < |slots| && k.player != key.player {
      assert after[own] == slots[own];
    }
  }

  lemma ControlKeepsLast(slots: Slots, c: Control, key: Key)
    requires OnePerPlayer(slots) && !Foreign(slots, c, key)
    ensures OnePerPlayer(B.AfterControl(slots, c))
    ensures LastOf(B.AfterControl(slots, c), key) == if Ends(c, key) then None else LastOf(slots, key)
  {
    match c
    case Spawn(s) => SpawnKeepsLast(slots, s, key);
    case Despawn(k) => DespawnKeepsLast(slots, k, key);
  }

  predicate SameSeats(a: Slots, b: Slots) { B.SameSeats(a, b) }

  lemma SeatsDecide(a: Slots, b: Slots, key: Key)
    requires SameSeats(a, b)
    ensures B.FindKey(a, key, 0) == B.FindKey(b, key, 0)
            && B.FindPlayer(a, key.player, 0) == B.FindPlayer(b, key.player, 0)
    ensures B.FindVacant(a, 0) == B.FindVacant(b, 0)
    ensures LastOf(a, key) == LastOf(b, key) && (OnePerPlayer(a) ==> OnePerPlayer(b))
  {
    assert forall i :: 0 <= i < |a| ==> B.SameSeat(a[i], b[i]);
  }

  lemma EvictionKeepsSeats(a: Slots, b: Slots, key: Key)
    requires SameSeats(a, b)
    ensures SameSeats(B.Evicted(a, key), B.Evicted(b, key))
  {
    SeatsDecide(a, b, key);
  }

  lemma SpawnKeepsSeats(a: Slots, b: Slots, c: SpawnCommand)
    requires SameSeats(a, b)
    ensures SameSeats(B.AfterSpawn(a, c), B.AfterSpawn(b, c))
  {
    EvictionKeepsSeats(a, b, c.key);
    SeatsDecide(B.Evicted(a, c.key), B.Evicted(b, c.key), c.key);
  }

  lemma ControlKeepsSeats(a: Slots, b: Slots, c: Control)
    requires SameSeats(a, b)
    ensures SameSeats(B.AfterControl(a, c), B.AfterControl(b, c))
  {
    match c
    case Spawn(s) => SpawnKeepsSeats(a, b, s);
    case Despawn(k) => SeatsDecide(a, b, k);
  }

  lemma {:induction false} ControlsKeepSeats(a: Slots, b: Slots, controls: seq<Control>)
    requires SameSeats(a, b)
    ensures SameSeats(B.AfterControls(a, controls), B.AfterControls(b, controls))
  {
    if controls != [] {
      ControlsKeepSeats(a, b, controls[..|controls| - 1]);
      ControlKeepsSeats(B.AfterControls(a, controls[..|controls| - 1]), B.AfterControls(b, controls[..|controls| - 1]),
                        controls[|controls| - 1]);
    }
  }

  // ----- whole runs -------------------------------------------------------------------------

  /** An operation on the queue, and the slots afterwards. */
  datatype Turn = Turn(op: Op, slots: Slots)

  function Ops(turns: seq<Turn>): (ops: seq<Op>)
    ensures |ops| == |turns|
  {
    seq(|turns|, i requires 0 <= i < |turns| => turns[i].op)
  }

  function SlotsOf(turns: seq<Turn>): Slots {
    if turns == [] then seq(B.SLOTS, _ => B.FREE) else turns[|turns| - 1].slots
  }

  /** The slots when a drain would come to its states. */
  function Due(turns: seq<Turn>): Slots { B.AfterControls(SlotsOf(turns), Run(Ops(turns)).controls) }

  function Emitted(turns: seq<Turn>): seq<Sample> { DrainBatch(Run(Ops(turns))).states }

  /** A drain is a tick of the game thread, as ActorBackend.Backend.Tick describes it, and the initialisation
      clears queue and slots together. What the game thread does otherwise moves no seat. */
  predicate Follows(prior: seq<Turn>, t: Turn) {
    match t.op
    case Drain => SameSeats(B.AfterStates(Due(prior), Emitted(prior)), t.slots)
    case Clear => SameSeats(seq(B.SLOTS, _ => B.FREE), t.slots)
    case _ => SameSeats(SlotsOf(prior), t.slots)
  }

  /** The sidecar despawns only the incarnation it spawned (ActorStream.DespawnNamesSeated); a state of another
      vehicle than the announced one sends the bridge into its safe mode. */
  ghost predicate Orderly(prior: seq<Turn>, t: Turn, key: Key) {
    match t.op
    case PushControl(c) => !Foreign(Due(prior), c, key)
    case Drain => AllFit(Due(prior), key, Emitted(prior))
    case _ => true
  }

  ghost predicate Bridged(turns: seq<Turn>, key: Key) {
    turns != [] ==>
      var prior, t := turns[..|turns| - 1], turns[|turns| - 1];
      Bridged(prior, key) && Follows(prior, t) && Orderly(prior, t, key)
  }

  predicate TakesAll(prior: seq<Turn>, t: Turn, key: Key) {
    t.op == Drain && Seats(Due(prior), key) ==> NoneIgnored(LastOf(Due(prior), key), Of(Emitted(prior), key))
  }

  ghost predicate LeapsNowhere(prior: seq<Turn>, t: Turn, key: Key) {
    t.op == Drain && LastOf(Due(prior), key).Some? ==> Continues(Ops(prior), key)
  }

  /** No drain emitted a state of `key` that its slot ignored. */
  ghost predicate NoStateIgnored(turns: seq<Turn>, key: Key) {
    turns != [] ==>
      var prior, t := turns[..|turns| - 1], turns[|turns| - 1];
      NoStateIgnored(prior, key) && TakesAll(prior, t, key)
  }

  /** At every drain into a slot that holds a state, what is emitted continues what was drained before. */
  ghost predicate NoLeap(turns: seq<Turn>, key: Key) {
    turns != [] ==>
      var prior, t := turns[..|turns| - 1], turns[|turns| - 1];
      NoLeap(prior, key) && LeapsNowhere(prior, t, key)
  }

  /** With the controls applied, a state in the slot of `key` is the last of `done`. */
  ghost predicate Holds(slots: Slots, controls: seq<Control>, done: seq<Sample>, key: Key) {
    && var due := B.AfterControls(slots, controls);
       OnePerPlayer(due) && (LastOf(due, key).Some? ==> done != [] && LastOf(due, key) == Some(done[|done| - 1]))
  }

  lemma SeatsKeepHolds(slots: Slots, next: Slots, controls: seq<Control>, done: seq<Sample>, key: Key)
    requires Holds(slots, controls, done, key) && SameSeats(slots, next)
    ensures Holds(next, controls, done, key)
  {
    ControlsKeepSeats(slots, next, controls);
    SeatsDecide(B.AfterControls(slots, controls), B.AfterControls(next, controls), key);
  }

  lemma ControlKeepsHolds(slots: Slots, controls: seq<Control>, c: Control, done: seq<Sample>, key: Key)
    requires Holds(slots, controls, done, key) && !Foreign(B.AfterControls(slots, controls), c, key)
    ensures Holds(slots, controls + [c], if Ends(c, key) then [] else done, key)
  {
    assert (controls + [c])[..|controls|] == controls;
    ControlKeepsLast(B.AfterControls(slots, controls), c, key);
  }

  /** A state in the slot is the last one of the epoch that was drained. */
  ghost predicate Settled(turns: seq<Turn>, key: Key) {
    Holds(SlotsOf(turns), Run(Ops(turns)).controls, Drained(Ops(turns), key), key)
  }

  lemma PushKeepsDrained(ops: seq<Op>, prior: seq<Op>, op: Op, key: Key)
    requires ops == prior + [op] && op.PushState?
    ensures Run(ops).controls == Run(prior).controls && Drained(ops, key) == Drained(prior, key)
  {
    assert ops[..|prior|] == prior;
    PendingIsSuffix(prior, key);
  }

  lemma ControlKeepsDrained(ops: seq<Op>, prior: seq<Op>, op: Op, key: Key)
    requires ops == prior + [op] && op.PushControl?
    ensures if ControlResult(Run(prior), op.control) == Queued
            then Run(ops).controls == Run(prior).controls + [op.control]
                 && Drained(ops, key) == if Ends(op.control, key) then [] else Drained(prior, key)
            else Run(ops).controls == Run(prior).controls && Drained(ops, key) == Drained(prior, key)
  {
    assert ops[..|prior|] == prior;
    PendingIsSuffix(prior, key);
  }

  lemma DrainMovesAll(ops: seq<Op>, prior: seq<Op>, key: Key)
    requires ops == prior + [Drain]
    ensures Run(ops).controls == [] && Drained(ops, key) == Epoch(prior, key)
  {
    assert ops[..|prior|] == prior;
  }

  lemma OpsNext(turns: seq<Turn>, prior: seq<Turn>, t: Turn)
    requires turns == prior + [t]
    ensures Ops(turns) == Ops(prior) + [t.op] && turns[..|prior|] == prior && SlotsOf(turns) == t.slots
  {
  }

  lemma PushKeepsSettled(turns: seq<Turn>, prior: seq<Turn>, t: Turn, key: Key)
    requires turns == prior + [t] && (t.op.PushState? || t.op.PushControl?)
    requires Settled(prior, key) && Follows(prior, t) && Orderly(prior, t, key)
    ensures Settled(turns, key)
  {
    OpsNext(turns, prior, t);
    var ops, done := Ops(prior), Drained(Ops(prior), key);
    var slots, q := SlotsOf(prior), Run(ops);
    if t.op.PushState? {
      PushKeepsDrained(Ops(turns), ops, t.op, key);
      SeatsKeepHolds(slots, t.slots, q.controls, done, key);
    } else {
      var c := t.op.control;
      ControlKeepsDrained(Ops(turns), ops, t.op, key);
      if ControlResult(q, c) == Queued {
        ControlKeepsHolds(slots, q.controls, c, done, key);
        SeatsKeepHolds(slots, t.slots, q.controls + [c], if Ends(c, key) then [] else done, key);
      } else {
        SeatsKeepHolds(slots, t.slots, q.controls, done, key);
      }
    }
  }

  lemma NextIsTaken(last: Option<Sample>, done: seq<Sample>, next: seq<Sample>)
    requires Chained(next) && (last.Some? ==> done != [] && last == Some(done[|done| - 1]))
    ensures NoneIgnored(last, next) <==>
            (last.Some? && done != [] && next != [] ==> Newer(next[0].sequence, done[|done| - 1].sequence))
    ensures NoneIgnored(last, next) && next != [] ==> Taken(last, next) == Some(next[|next| - 1])
  {
    if next != [] {
      ChainIsTaken(last, next);
    }
  }

  lemma EmittedOf(turns: seq<Turn>, key: Key)
    requires ValidIdentity(key)
    ensures Of(Emitted(turns), key) == DrainedNext(Ops(turns), key) && Chained(DrainedNext(Ops(turns), key))
  {
    DrainEmitsPending(Ops(turns));
    NextIsChained(Ops(turns), key);
  }

  /** What one drain does: it ignores a state of `key` exactly when what it emits does not continue what
      was drained before. */
  lemma DrainIsTaken(prior: seq<Turn>, key: Key)
    requires ValidIdentity(key) && Settled(prior, key)
    ensures var last, states := LastOf(Due(prior), key), Of(Emitted(prior), key);
            && (NoneIgnored(last, states) <==> (last.Some? ==> Continues(Ops(prior), key)))
            && (NoneIgnored(last, states) && states != [] ==> Taken(last, states) == Some(states[|states| - 1]))
  {
    EmittedOf(prior, key);
    NextIsTaken(LastOf(Due(prior), key), Drained(Ops(prior), key), DrainedNext(Ops(prior), key));
  }

  lemma DrainKeepsSettled(turns: seq<Turn>, prior: seq<Turn>, t: Turn, key: Key)
    requires turns == prior + [t] && t.op == Drain && ValidIdentity(key)
    requires Settled(prior, key) && Follows(prior, t) && Orderly(prior, t, key)
    requires LastOf(Due(prior), key).Some? ==> Continues(Ops(prior), key)
    ensures Settled(turns, key)
  {
    var ops, due, applied := Ops(prior), Due(prior), B.AfterStates(Due(prior), Emitted(prior));
    OpsNext(turns, prior, t);
    DrainMovesAll(Ops(turns), ops, key);
    StatesKeepPlayers(due, Emitted(prior));
    StatesAreTaken(due, Emitted(prior), key);
    EmittedOf(prior, key);
    PendingIsSuffix(ops, key);
    if Seats(due, key) {
      DrainIsTaken(prior, key);
    }
    SeatsKeepHolds(applied, t.slots, [], Epoch(ops, key), key);
  }

  lemma {:induction false} StatesKeepPlayers(slots: Slots, states: seq<Sample>)
    requires OnePerPlayer(slots)
    ensures OnePerPlayer(B.AfterStates(slots, states))
  {
    if states != [] {
      StatesKeepPlayers(slots, states[..|states| - 1]);
    }
  }

  lemma StartIsSettled(turns: seq<Turn>, prior: seq<Turn>, t: Turn, key: Key)
    requires turns == prior + [t] && t.op == Clear && Follows(prior, t)
    ensures Settled(turns, key)
  {
    OpsNext(turns, prior, t);
    assert Ops(turns)[..|prior|] == Ops(prior);
    SeatsKeepHolds(seq(B.SLOTS, _ => B.FREE), t.slots, [], [], key);
  }

  lemma TurnIsDecided(prior: seq<Turn>, t: Turn, key: Key)
    requires ValidIdentity(key) && Settled(prior, key)
    ensures TakesAll(prior, t, key) <==> LeapsNowhere(prior, t, key)
  {
    DrainIsTaken(prior, key);
  }

  lemma TurnKeepsSettled(turns: seq<Turn>, prior: seq<Turn>, t: Turn, key: Key)
    requires turns == prior + [t] && ValidIdentity(key)
    requires Settled(prior, key) && Follows(prior, t) && Orderly(prior, t, key) && LeapsNowhere(prior, t, key)
    ensures Settled(turns, key)
  {
    match t.op
    case Drain => DrainKeepsSettled(turns, prior, t, key);
    case Clear => StartIsSettled(turns, prior, t, key);
    case _ => PushKeepsSettled(turns, prior, t, key);
  }

  /** Over every run of queue and bridge: no slot ever ignores a drained state, unless so many were dropped
      between two drains that the first one left is not newer than the last one drained. */
  lemma {:induction false} DrainedStatesAreTaken(turns: seq<Turn>, key: Key)
    requires ValidIdentity(key) && Bridged(turns, key)
    ensures NoStateIgnored(turns, key) <==> NoLeap(turns, key)
    ensures NoLeap(turns, key) ==> Settled(turns, key)
  {
    if turns != [] {
      var prior, t := turns[..|turns| - 1], turns[|turns| - 1];
      DrainedStatesAreTaken(prior, key);
      if NoLeap(prior, key) {
        TurnIsDecided(prior, t, key);
        if LeapsNowhere(prior, t, key) {
          TurnKeepsSettled(turns, prior, t, key);
        }
      }
    }
  }

  /** Between two drains no more states of `key` were accepted than its ring holds. */
  ghost predicate NoneDropped(turns: seq<Turn>, key: Key) {
    turns != [] ==>
      var prior, t := turns[..|turns| - 1], turns[|turns| - 1];
      NoneDropped(prior, key) && (t.op == Drain ==> |Pending(Ops(prior), key)| <= FIFO_DEPTH)
  }

  /** Where nothing is dropped nothing is ignored, however far the sequence numbers leap. */
  lemma {:induction false} UndroppedStatesAreTaken(turns: seq<Turn>, key: Key)
    requires ValidIdentity(key) && Bridged(turns, key) && NoneDropped(turns, key)
    ensures NoStateIgnored(turns, key) && NoLeap(turns, key)
  {
    if turns != [] {
      var prior := turns[..|turns| - 1];
      UndroppedStatesAreTaken(prior, key);
      var e := Epoch(Ops(prior), key);
      PendingIsSuffix(Ops(prior), key);
      if turns[|turns| - 1].op == Drain {
        ContinuesExactly(Ops(prior), key, e, UnwrapAll(Sequences(e)), |Drained(Ops(prior), key)|,
                         |e| - |DrainedNext(Ops(prior), key)|);
      }
    }
    DrainedStatesAreTaken(turns, key);
  }

  // ----- the failing side -------------------------------------------------------------------

  const SOMEBODY := Key(1, 1)

  /** One less than half the number space: the widest step the queue accepts. */
  const LEAP := HALF - 1

  function Leap(n: nat): Sample {
    Sample(SOMEBODY, (n * LEAP) % MODULUS, 0, 0, 0, (0.0, 0.0, 0.0, 1.0), true, 0)
  }

  function Leaps(n: nat): (states: seq<Sample>)
    ensures |states| == n
  {
    seq(n, i requires 0 <= i < n => Leap(i + 1))
  }

  lemma {:induction false} OfContains(states: seq<Sample>, key: Key, s: Sample)
    requires s in states && s.key == key
    ensures s in Of(states, key)
  {
    if s != states[|states| - 1] {
      OfContains(states[..|states| - 1], key, s);
    }
  }

  /** A drain into a slot of vehicle and paint zero. */
  lemma Drains(prior: seq<Turn>, key: Key) returns (turns: seq<Turn>)
    requires ValidIdentity(key) && Bridged(prior, key) && Keeps(Due(prior), key, LastOf(Due(prior), key))
    requires forall s :: s in Pending(Ops(prior), key) ==> s.vehicle == 0 && s.paint == 0
    ensures turns == prior + [Turn(Drain, B.AfterStates(Due(prior), Emitted(prior)))] && Bridged(turns, key)
    ensures Run(Ops(turns)).controls == [] && Epoch(Ops(turns), key) == Epoch(Ops(prior), key)
    ensures Pending(Ops(turns), key) == []
  {
    var t := Turn(Drain, B.AfterStates(Due(prior), Emitted(prior)));
    turns := prior + [t];
    OpsNext(turns, prior, t);
    EmittedOf(prior, key);
    forall s | s in Emitted(prior)
      ensures Fits(Due(prior), key, s)
    {
      if s.key == key {
        OfContains(Emitted(prior), key, s);
      }
    }
    assert Ops(turns)[..|prior|] == Ops(prior);
  }

  lemma Pushes(prior: seq<Turn>, s: Sample) returns (turns: seq<Turn>)
    requires ValidState(s) && Bridged(prior, s.key)
    requires var e := Epoch(Ops(prior), s.key);
             if e == [] then |LiveKeys(Run(Ops(prior)).fifos)| < MAXIMUM_PLAYERS
             else Newer(s.sequence, e[|e| - 1].sequence)
    ensures turns == prior + [Turn(PushState(s), SlotsOf(prior))] && Bridged(turns, s.key)
    ensures Run(Ops(turns)).controls == Run(Ops(prior)).controls
    ensures Epoch(Ops(turns), s.key) == Epoch(Ops(prior), s.key) + [s]
    ensures Pending(Ops(turns), s.key) == Pending(Ops(prior), s.key) + [s]
  {
    turns := prior + [Turn(PushState(s), SlotsOf(prior))];
    OpsNext(turns, prior, Turn(PushState(s), SlotsOf(prior)));
    StateResultFromHistory(Ops(prior), s);
    assert Ops(turns)[..|prior|] == Ops(prior);
  }

  lemma FirstSpawn(ops: seq<Op>, c: Control, key: Key)
    requires ops == [PushControl(c)] && c.Spawn? && ValidSpawn(c.spawn)
    ensures Run(ops).controls == [c] && |LiveKeys(Run(ops).fifos)| < MAXIMUM_PLAYERS
    ensures Epoch(ops, key) == [] && Pending(ops, key) == []
  {
    var none: seq<Op> := [];
    assert ops[..0] == none;
    assert Run(ops) == After(Run(none), PushControl(c));
    assert Run(none) == Empty();
    var fifos := Run(ops).fifos;
    assert fifos == Purge(Empty().fifos, c.spawn.key.player, c.spawn.key.incarnation);
    assert forall i :: 0 <= i < |fifos| ==> fifos[i] == FREE;
    LiveKeysCount(fifos);
    assert Epoch(none, key) == [] && Pending(none, key) == [];
  }

  lemma SpawnIsAnnounced(start: Slots, c: Control, key: Key) returns (turns: seq<Turn>)
    requires start == seq(B.SLOTS, _ => B.FREE) && c.Spawn? && ValidSpawn(c.spawn)
    ensures turns == [Turn(PushControl(c), start)] && Bridged(turns, key) && Run(Ops(turns)).controls == [c]
    ensures Epoch(Ops(turns), key) == [] && Pending(Ops(turns), key) == []
    ensures |LiveKeys(Run(Ops(turns)).fifos)| < MAXIMUM_PLAYERS
  {
    turns := [Turn(PushControl(c), start)];
    FirstSpawn(Ops(turns), c, key);
    var none: seq<Turn> := [];
    assert turns[..0] == none && Bridged(none, key);
    assert Follows(none, turns[0]) && Orderly(none, turns[0], key);
  }

  /** The slot of `key`, with vehicle and paint zero, holds `last`. */
  predicate Keeps(slots: Slots, key: Key, last: Option<Sample>) {
    && Seats(slots, key) && LastOf(slots, key) == last
    && var i := B.FindKey(slots, key, 0);
       slots[i].vehicleType == 0 && slots[i].paint == 0
  }

  lemma SpawnIsSeated(start: Slots, c: Control, due: Slots)
    requires start == seq(B.SLOTS, _ => B.FREE) && due == B.AfterControls(start, [c])
    requires c.Spawn? && c.spawn.vehicle == 0 && c.spawn.paint == 0
    ensures Keeps(due, c.spawn.key, None)
  {
    assert [c][..0] == [];
    assert due == B.AfterSpawn(start, c.spawn);
    assert due[0] == B.Seated(c.spawn.key, 0, 0);
  }

  lemma DrainIsKept(prior: seq<Turn>, key: Key, s: Sample) returns (turns: seq<Turn>)
    requires ValidIdentity(key) && Bridged(prior, key) && Keeps(Due(prior), key, None)
    requires Pending(Ops(prior), key) == [s] && s.vehicle == 0 && s.paint == 0
    ensures Bridged(turns, key) && Run(Ops(turns)).controls == []
    ensures Epoch(Ops(turns), key) == Epoch(Ops(prior), key) && Pending(Ops(turns), key) == []
    ensures Keeps(SlotsOf(turns), key, Some(s))
  {
    turns := Drains(prior, key);
    EmittedOf(prior, key);
    StatesAreTaken(Due(prior), Emitted(prior), key);
    assert [s][..0] == [];
  }

  /** A spawn, its first state, a drain: the slot holds the state. */
  lemma FirstStateIsHeld(c: Control, s: Sample) returns (turns: seq<Turn>)
    requires c.Spawn? && ValidSpawn(c.spawn) && c.spawn.vehicle == 0 && c.spawn.paint == 0
    requires ValidState(s) && s.key == c.spawn.key && s.vehicle == 0 && s.paint == 0
    ensures Bridged(turns, s.key) && Run(Ops(turns)).controls == []
    ensures Epoch(Ops(turns), s.key) == [s] && Pending(Ops(turns), s.key) == []
    ensures Keeps(SlotsOf(turns), s.key, Some(s))
  {
    var start: Slots := seq(B.SLOTS, _ => B.FREE);
    var announced := SpawnIsAnnounced(start, c, s.key);
    var pushed := Pushes(announced, s);
    SpawnIsSeated(start, c, Due(pushed));
    turns := DrainIsKept(pushed, s.key, s);
  }

  lemma LeapsOn(n: nat)
    ensures Newer(Leap(n + 1).sequence, Leap(n).sequence) && Leaps(n + 1) == Leaps(n) + [Leap(n + 1)]
    ensures ([Leap(0)] + Leaps(n))[n] == Leap(n)
    ensures [Leap(0)] + Leaps(n) + [Leap(n + 1)] == [Leap(0)] + Leaps(n + 1)
  {
    ReduceDifference((n + 1) * LEAP, n * LEAP);
  }

  /** The slot holds the first state, and `n` more are buffered. */
  ghost predicate Leapt(turns: seq<Turn>, slots: Slots, n: nat) {
    && Bridged(turns, SOMEBODY) && Run(Ops(turns)).controls == [] && SlotsOf(turns) == slots
    && Epoch(Ops(turns), SOMEBODY) == [Leap(0)] + Leaps(n) && Pending(Ops(turns), SOMEBODY) == Leaps(n)
  }

  lemma OneMoreLeap(prior: seq<Turn>, slots: Slots, n: nat, s: Sample) returns (turns: seq<Turn>)
    requires Leapt(prior, slots, n) && s == Leap(n + 1)
    ensures Leapt(turns, slots, n + 1)
  {
    LeapsOn(n);
    turns := Pushes(prior, s);
  }

  lemma {:induction false} StatesLeap(first: seq<Turn>, slots: Slots, n: nat) returns (turns: seq<Turn>)
    requires Leapt(first, slots, 0)
    ensures Leapt(turns, slots, n)
  {
    turns := first;
    if n > 0 {
      var prior := StatesLeap(first, slots, n - 1);
      turns := OneMoreLeap(prior, slots, n - 1, Leap(n));
    }
  }

  lemma NinthLeapBreaks(ops: seq<Op>, n: nat)
    requires n == FIFO_DEPTH + 1
    requires Epoch(ops, SOMEBODY) == [Leap(0)] + Leaps(n) && Pending(ops, SOMEBODY) == Leaps(n)
    ensures !Continues(ops, SOMEBODY)
  {
    assert Drained(ops, SOMEBODY) == [Leap(0)];
    assert DrainedNext(ops, SOMEBODY)[0] == Leap(2);
  }

  lemma LastDrainLeaps(prior: seq<Turn>, slots: Slots, n: nat, first: Sample) returns (turns: seq<Turn>)
    requires n == FIFO_DEPTH + 1 && Leapt(prior, slots, n) && Keeps(slots, SOMEBODY, Some(first))
    ensures Bridged(turns, SOMEBODY) && !NoLeap(turns, SOMEBODY)
  {
    assert Due(prior) == slots;
    turns := Drains(prior, SOMEBODY);
    NinthLeapBreaks(Ops(prior), n);
    assert turns[..|prior|] == prior;
  }

  /** The failing side is reached: nine states, each as far ahead of the one before as the queue accepts,
      push out the first of them, and the slot ignores the second. */
  lemma LeapIsIgnored() returns (turns: seq<Turn>)
    ensures Bridged(turns, SOMEBODY) && !NoStateIgnored(turns, SOMEBODY)
  {
    var first := FirstStateIsHeld(Spawn(SpawnCommand(SOMEBODY, 0, 0, "\0")), Leap(0));
    assert [Leap(0)] + Leaps(0) == [Leap(0)];
    var prior := StatesLeap(first, SlotsOf(first), FIFO_DEPTH + 1);
    turns := LastDrainLeaps(prior, SlotsOf(first), FIFO_DEPTH + 1, Leap(0));
    DrainedStatesAreTaken(turns, SOMEBODY);
  }
}
