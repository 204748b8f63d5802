/** bridge/remote_actor_registry.cpp: the game thread's ownership table, and the single-threaded
    reading of its collision index. CollisionSeqlock.dfy interleaves the latter. */
module ActorRegistry {
  import opened Options
  import opened GamePointers
  import opened Sequences
  import opened Serial
  import CommandQueue

  const CAPACITY := 7

  type Key = CommandQueue.Key

  datatype Binding = Binding(remote: Key, gamePlayer: u32, generation: u32, vehicle: u32, movingItem: u32, physics: u32)

  datatype Outcome =
    | Inserted | Removed | NotFound | StaleIncarnation | StaleGeneration
    | RemotePlayerConflict | GameIdentityConflict | Invalid | Full

  const BLANK := Binding(CommandQueue.Key(0, 0), 0, 0, 0, 0, 0)

  predicate IsValid(b: Binding) {
    && CommandQueue.ValidIdentity(b.remote) && b.generation == 0
    && Plausible(b.gamePlayer) && Plausible(b.vehicle)
    && Plausible(b.movingItem) && Plausible(b.physics)
  }

  predicate SharesIdentity(a: Binding, b: Binding) {
    a.gamePlayer == b.gamePlayer || a.vehicle == b.vehicle || a.movingItem == b.movingItem || a.physics == b.physics
  }

  predicate Conflicts(a: Binding, b: Binding) { a.remote.player == b.remote.player || SharesIdentity(a, b) }

  // ----- the table as a value ---------------------------------------------------------------

  datatype Table = Table(bindings: seq<Binding>, next: u32)

  const EMPTY := Table([], 1)

  /** No two bindings agree on the player or on any of the four game identities. */
  predicate Inv(t: Table) {
    && |t.bindings| <= CAPACITY && t.next != 0
    && (forall b :: b in t.bindings ==> b.generation != 0 && IsValid(b.(generation := 0)))
    && (forall i, j :: 0 <= i < j < |t.bindings| ==> !Conflicts(t.bindings[i], t.bindings[j]))
  }

  function FirstConflict(bindings: seq<Binding>, c: Binding, from: nat): (i: nat)
    requires from <= |bindings|
    ensures from <= i <= |bindings|
    ensures i < |bindings| ==> Conflicts(bindings[i], c)
    ensures forall j :: from <= j < i ==> !Conflicts(bindings[j], c)
    decreases |bindings| - from
  {
    if from == |bindings| || Conflicts(bindings[from], c) then from else FirstConflict(bindings, c, from + 1)
  }

  function InsertOutcome(t: Table, c: Binding): Outcome {
    if !IsValid(c) then Invalid
    else
      var i := FirstConflict(t.bindings, c, 0);
      if i < |t.bindings| then
        if t.bindings[i].remote.player == c.remote.player then RemotePlayerConflict else GameIdentityConflict
      else if |t.bindings| == CAPACITY then Full else Inserted
  }

  /** The counter wraps past zero, which never names a generation. */
  function Successor(next: u32): u32 { if next == MODULUS - 1 then 1 else next + 1 }

  function AfterInsert(t: Table, c: Binding): Table {
    if InsertOutcome(t, c) != Inserted then t
    else Table(t.bindings + [c.(generation := t.next)], Successor(t.next))
  }

  function FindPlayer(bindings: seq<Binding>, player: nat, from: nat): (i: nat)
    requires from <= |bindings|
    ensures from <= i <= |bindings|
    ensures i < |bindings| ==> bindings[i].remote.player == player
    ensures forall j :: from <= j < i ==> bindings[j].remote.player != player
    decreases |bindings| - from
  {
    if from == |bindings| || bindings[from].remote.player == player then from
    else FindPlayer(bindings, player, from + 1)
  }

  function EraseOutcome(t: Table, key: Key, generation: u32): Outcome {
    if key.player == 0 || key.incarnation == 0 || generation == 0 then Invalid
    else
      var i := FindPlayer(t.bindings, key.player, 0);
      if i == |t.bindings| then NotFound
      else if t.bindings[i].remote.incarnation != key.incarnation then StaleIncarnation
      else if t.bindings[i].generation != generation then StaleGeneration
      else Removed
  }

  function AfterErase(t: Table, key: Key, generation: u32): Table {
    if EraseOutcome(t, key, generation) != Removed then t
    else t.(bindings := Without(t.bindings, FindPlayer(t.bindings, key.player, 0)))
  }

  lemma InsertKeepsInv(t: Table, c: Binding)
    requires Inv(t)
    ensures Inv(AfterInsert(t, c))
    ensures InsertOutcome(t, c) == Inserted <==>
            IsValid(c) && |t.bindings| < CAPACITY && forall b :: b in t.bindings ==> !Conflicts(b, c)
  {
  }

  lemma EraseKeepsInv(t: Table, key: Key, generation: u32)
    requires Inv(t)
    ensures Inv(AfterErase(t, key, generation))
  {
    if EraseOutcome(t, key, generation) == Removed {
      var i := FindPlayer(t.bindings, key.player, 0);
      var rest := Without(t.bindings, i);
      assert forall j :: 0 <= j < |rest| ==> rest[j] == t.bindings[if j < i then j else j + 1];
    }
  }

  /** An erase removes exactly the binding with that key and generation, if there is one. */
  lemma EraseIsExact(t: Table, key: Key, generation: u32)
    requires Inv(t)
    ensures EraseOutcome(t, key, generation) == Removed <==>
            exists b :: b in t.bindings && b.remote == key && b.generation == generation
    ensures forall b :: b in AfterErase(t, key, generation).bindings <==>
                        b in t.bindings && !(b.remote == key && b.generation == generation)
  {
    var i := FindPlayer(t.bindings, key.player, 0);
    forall b | b in t.bindings && b.remote == key && b.generation == generation
      ensures i < |t.bindings| && b == t.bindings[i]
    {
      var j :| 0 <= j < |t.bindings| && t.bindings[j] == b;
    }
    if EraseOutcome(t, key, generation) == Removed {
      WithoutMembers(t.bindings, i);
    }
  }

  lemma WithoutMembers(s: seq<Binding>, i: nat)
    requires i < |s| && forall j, k :: 0 <= j < k < |s| ==> s[j] != s[k]
    ensures forall b :: b in Without(s, i) <==> b in s && b != s[i]
  {
    var rest := Without(s, i);
    forall b | b in s && b != s[i]
      ensures b in rest
    {
      var j :| 0 <= j < |s| && s[j] == b;
      assert rest[if j < i then j else j - 1] == b;
    }
  }

  // ----- generations over whole runs --------------------------------------------------------

  datatype Op = Insert(candidate: Binding) | Erase(key: Key, generation: u32) | Clear

  function After(t: Table, op: Op): Table {
    match op
    case Insert(c) => AfterInsert(t, c)
    case Erase(k, g) => AfterErase(t, k, g)
    case Clear => t.(bindings := [])
  }

  function Run(ops: seq<Op>): Table {
    if ops == [] then EMPTY else After(Run(ops[..|ops| - 1]), ops[|ops| - 1])
  }

  predicate Inserts(t: Table, op: Op) { op.Insert? && InsertOutcome(t, op.candidate) == Inserted }

  predicate Removes(t: Table, op: Op) { op.Erase? && EraseOutcome(t, op.key, op.generation) == Removed }

  function NextLog(t: Table, log: seq<Binding>, op: Op): seq<Binding> {
    if Inserts(t, op) then log + [op.candidate.(generation := t.next)] else log
  }

  /** Every binding ever inserted, in order; its index is the ticket of the insertion. */
  ghost function Log(ops: seq<Op>): seq<Binding> {
    if ops == [] then [] else NextLog(Run(ops[..|ops| - 1]), Log(ops[..|ops| - 1]), ops[|ops| - 1])
  }

  function NextTickets(t: Table, tickets: seq<nat>, op: Op, ticket: nat): seq<nat> {
    if Inserts(t, op) then tickets + [ticket]
    else if op == Clear then []
    else if Removes(t, op) && |tickets| == |t.bindings| then Without(tickets, FindPlayer(t.bindings, op.key.player, 0))
    else tickets
  }

  /** For each binding of the table, the ticket of the insertion that made it. */
  ghost function Tickets(ops: seq<Op>): seq<nat> {
    if ops == [] then []
    else
      var prior := ops[..|ops| - 1];
      NextTickets(Run(prior), Tickets(prior), ops[|ops| - 1], |Log(prior)|)
  }

  /** Insertion number `ticket` issues this generation: 1, 2, ..., 2^32-1, 1, ... */
  function GenerationOf(ticket: nat): u32 { ticket % (MODULUS - 1) + 1 }

  lemma GenerationOfNext(ticket: nat)
    ensures GenerationOf(ticket + 1) == Successor(GenerationOf(ticket))
  {
    var m := MODULUS - 1;
    var r := ticket % m;
    assert ticket + 1 == ticket / m * m + r + 1;
    if r == m - 1 {
      assert ticket + 1 == (ticket / m + 1) * m;
      assert (ticket + 1) % m == 0;
    } else {
      assert (ticket + 1) % m == r + 1;
    }
  }

  /** Each binding is the one its ticket logged, and no later insertion was for its player. */
  ghost predicate Tracked(t: Table, tickets: seq<nat>, log: seq<Binding>) {
    && |tickets| == |t.bindings|
    && t.next == GenerationOf(|log|)
    && (forall u :: 0 <= u < |log| ==> log[u].generation == GenerationOf(u))
    && (forall i :: 0 <= i < |tickets| ==> tickets[i] < |log| && t.bindings[i] == log[tickets[i]])
    && (forall i, u ::
          0 <= i < |tickets| && tickets[i] < u < |log| ==> log[u].remote.player != t.bindings[i].remote.player)
  }

  lemma InsertTracks(t: Table, tickets: seq<nat>, log: seq<Binding>, c: Binding)
    requires Tracked(t, tickets, log) && InsertOutcome(t, c) == Inserted
    ensures Tracked(AfterInsert(t, c), tickets + [|log|], log + [c.(generation := t.next)])
  {
    GenerationOfNext(|log|);
  }

  lemma EraseTracks(t: Table, tickets: seq<nat>, log: seq<Binding>, i: nat)
    requires Tracked(t, tickets, log) && i < |tickets|
    ensures Tracked(t.(bindings := Without(t.bindings, i)), Without(tickets, i), log)
  {
    var rest, kept := Without(t.bindings, i), Without(tickets, i);
    forall j | 0 <= j < |rest|
      ensures rest[j] == t.bindings[if j < i then j else j + 1] && kept[j] == tickets[if j < i then j else j + 1]
    {
    }
  }

  lemma StepTracks(t: Table, tickets: seq<nat>, log: seq<Binding>, op: Op)
    requires Inv(t) && Tracked(t, tickets, log)
    ensures Inv(After(t, op)) && Tracked(After(t, op), NextTickets(t, tickets, op, |log|), NextLog(t, log, op))
  {
    match op
    case Insert(c) =>
      InsertKeepsInv(t, c);
      if Inserts(t, op) {
        InsertTracks(t, tickets, log, c);
      }
    case Erase(k, g) =>
      EraseKeepsInv(t, k, g);
      if Removes(t, op) {
        EraseTracks(t, tickets, log, FindPlayer(t.bindings, k.player, 0));
      }
    case Clear =>
  }

  /** Every reachable table is free of aliases, and each of its bindings carries the generation of
      the insertion that made it. */
  lemma {:induction false} GenerationsFollowTickets(ops: seq<Op>)
    ensures Inv(Run(ops)) && Tracked(Run(ops), Tickets(ops), Log(ops))
  {
    if ops != [] {
      var prior := ops[..|ops| - 1];
      GenerationsFollowTickets(prior);
      StepTracks(Run(prior), Tickets(prior), Log(prior), ops[|ops| - 1]);
    }
  }

  lemma GenerationsRepeatOnlyAfterFullCycle(a: nat, b: nat)
    requires GenerationOf(a) == GenerationOf(b) && a <= b < a + MODULUS - 1
    ensures a == b
  {
    var m := MODULUS - 1;
    assert b - a == (b / m - a / m) * m;
  }

  /** The key and generation handed out by insertion `ticket` can remove only that insertion's
      binding, as long as at most 2^32-1 insertions were made since: an operation queued for an
      older actor never removes a newer one. */
  lemma StaleHandleRemovesNothing(ops: seq<Op>, ticket: nat)
    requires ticket < |Log(ops)| < ticket + MODULUS
    requires var handle := Log(ops)[ticket]; EraseOutcome(Run(ops), handle.remote, handle.generation) == Removed
    ensures var i := FindPlayer(Run(ops).bindings, Log(ops)[ticket].remote.player, 0);
            i < |Tickets(ops)| && Tickets(ops)[i] == ticket
  {
    GenerationsFollowTickets(ops);
    var i := FindPlayer(Run(ops).bindings, Log(ops)[ticket].remote.player, 0);
    var made := Tickets(ops)[i];
    assert made >= ticket;
    GenerationsRepeatOnlyAfterFullCycle(ticket, made);
  }

  // ----- the table as the source keeps it ---------------------------------------------------

  /** The compaction loop of Erase. */
  method ShiftDown<T>(cells: array<T>, index: nat, size: nat)
    requires index < size <= cells.Length
    modifies cells
    ensures cells[..size - 1] == Without(old(cells[..size]), index)
  {
    ghost var before := cells[..];
    for next := index + 1 to size
      invariant forall k :: 0 <= k < index || next - 1 <= k < cells.Length ==> cells[k] == before[k]
      invariant forall k :: index <= k < next - 1 ==> cells[k] == before[k + 1]
    {
      cells[next - 1] := cells[next];
    }
  }

  class RemoteActorRegistry {
    const bindings: array<Binding>
    var size: nat
    var nextGeneration: u32

    ghost predicate Valid()
      reads this, bindings
    {
      bindings.Length == CAPACITY && size <= CAPACITY && Inv(Abs())
    }

    ghost function Abs(): Table
      reads this, bindings
      requires size <= bindings.Length
    {
      Table(bindings[..size], nextGeneration)
    }

    constructor ()
      ensures Valid() && Abs() == EMPTY && fresh(bindings)
    {
      bindings := new Binding[CAPACITY](_ => BLANK);
      size, nextGeneration := 0, 1;
    }

    method NextGeneration() returns (result: u32)
      requires nextGeneration != 0
      modifies this`nextGeneration
      ensures result == old(nextGeneration) && nextGeneration == Successor(result) && nextGeneration != 0
    {
      result := nextGeneration;
      nextGeneration := (nextGeneration + 1) % MODULUS;
      if result == 0 {
        assert false; // the counter never rests at zero, so the source's second increment is dead
      }
      if nextGeneration == 0 {
        nextGeneration := 1;
      }
    }

    method Insert(candidate: Binding) returns (outcome: Outcome, inserted: Binding)
      requires Valid()
      modifies this, bindings
      ensures Valid()
      ensures outcome == InsertOutcome(old(Abs()), candidate)
      ensures Abs() == AfterInsert(old(Abs()), candidate)
      ensures inserted == if outcome == Inserted then candidate.(generation := old(nextGeneration)) else BLANK
    {
      inserted := BLANK;
      if !IsValid(candidate) {
        return Invalid, inserted;
      }
      for index := 0 to size
        invariant FirstConflict(bindings[..size], candidate, 0) == FirstConflict(bindings[..size], candidate, index)
      {
        var existing := bindings[index];
        if existing.remote.player == candidate.remote.player {
          return RemotePlayerConflict, inserted;
        }
        if SharesIdentity(existing, candidate) {
          return GameIdentityConflict, inserted;
        }
      }
      if size == bindings.Length {
        return Full, inserted;
      }
      InsertKeepsInv(Abs(), candidate);
      var generation := NextGeneration();
      inserted := candidate.(generation := generation);
      bindings[size] := inserted;
      size := size + 1;
      outcome := Inserted;
    }

    method Erase(key: Key, generation: u32) returns (outcome: Outcome)
      requires Valid()
      modifies this, bindings
      ensures Valid()
      ensures outcome == EraseOutcome(old(Abs()), key, generation)
      ensures Abs() == AfterErase(old(Abs()), key, generation)
    {
      if key.player == 0 || key.incarnation == 0 || generation == 0 {
        return Invalid;
      }
      for index := 0 to size
        invariant FindPlayer(bindings[..size], key.player, 0) == FindPlayer(bindings[..size], key.player, index)
      {
        if bindings[index].remote.player == key.player {
          if bindings[index].remote.incarnation != key.incarnation {
            return StaleIncarnation;
          }
          if bindings[index].generation != generation {
            return StaleGeneration;
          }
          EraseKeepsInv(Abs(), key, generation);
          ShiftDown(bindings, index, size);
          size := size - 1;
          bindings[size] := BLANK;
          return Removed;
        }
      }
      outcome := NotFound;
    }

    method Clear()
      requires Valid()
      modifies this, bindings
      ensures Valid() && Abs() == old(Abs()).(bindings := [])
    {
      for index := 0 to bindings.Length
        invariant size == old(size) && nextGeneration == old(nextGeneration)
      {
        bindings[index] := BLANK;
      }
      size := 0;
    }

    method Find(key: Key) returns (found: Option<Binding>)
      requires Valid()
      ensures found.Some? ==> found.value in Abs().bindings && found.value.remote == key
      ensures found.None? ==> forall b :: b in Abs().bindings ==> b.remote != key
    {
      for index := 0 to size
        invariant forall k :: 0 <= k < index ==> bindings[k].remote != key
      {
        if bindings[index].remote == key {
          return Some(bindings[index]);
        }
      }
      found := None;
    }
  }
}
