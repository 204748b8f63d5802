/** bridge/remote_command_queue.cpp: one pipe worker produces, the game thread drains. */
module CommandQueue {
  import opened Options
  import opened Serial
  import Ring

  const MAXIMUM_PLAYERS := 7
  const MAXIMUM_CONTROLS := 32
  const FIFO_DEPTH := 8

  datatype Key = Key(player: nat, incarnation: nat)

  datatype SpawnCommand = SpawnCommand(key: Key, vehicle: nat, paint: nat, name: seq<char>)

  /** `vehicleValid` stands for the shared vehicle-state check, `body` for the untested payload. */
  datatype Sample = Sample(key: Key, sequence: u32, flags: nat, vehicle: nat, paint: nat,
                           orientation: (real, real, real, real), vehicleValid: bool, body: int)

  datatype Control = Spawn(spawn: SpawnCommand) | Despawn(key: Key)

  datatype PushResult = Queued | DroppedOldest | Stale | Invalid | Overflow

  datatype Batch = Batch(controls: seq<Control>, states: seq<Sample>, dropped: u32)

  predicate ValidIdentity(key: Key) { key.player != 0 && key.incarnation != 0 }

  predicate ValidSpawn(c: SpawnCommand) {
    ValidIdentity(c.key) && c.paint <= 3 && '\0' in c.name
  }

  predicate ValidState(c: Sample) {
    var (x, y, z, w) := c.orientation;
    var excess := x * x + y * y + z * z + w * w - 1.0;
    ValidIdentity(c.key) && c.flags <= 7 && c.paint <= 3 && c.vehicleValid && -0.05 <= excess <= 0.05
  }

  // ----- the queue as a value ---------------------------------------------------------------

  datatype Fifo = Fifo(key: Key, items: seq<Sample>, last: Option<u32>)

  const FREE := Fifo(Key(0, 0), [], None)

  datatype Queue = Queue(controls: seq<Control>, fifos: seq<Fifo>, dropped: u32)

  function Empty(): Queue { Queue([], seq(MAXIMUM_PLAYERS, _ => FREE), 0) }

  /** First slot at or after `from` holding `key`; the number of slots when there is none. */
  function Find(fifos: seq<Fifo>, key: Key, from: nat): (slot: nat)
    requires from <= |fifos|
    ensures from <= slot <= |fifos|
    ensures slot < |fifos| ==> fifos[slot].key == key
    ensures forall i :: from <= i < slot ==> fifos[i].key != key
    decreases |fifos| - from
  {
    if from == |fifos| || fifos[from].key == key then from else Find(fifos, key, from + 1)
  }

  function FindFree(fifos: seq<Fifo>, from: nat): (slot: nat)
    requires from <= |fifos|
    ensures from <= slot <= |fifos|
    ensures slot < |fifos| ==> fifos[slot].key.player == 0
    ensures forall i :: from <= i < slot ==> fifos[i].key.player != 0
    decreases |fifos| - from
  {
    if from == |fifos| || fifos[from].key.player == 0 then from else FindFree(fifos, from + 1)
  }

  predicate Purged(key: Key, player: nat, except: nat) {
    key.player == player && (except == 0 || key.incarnation != except)
  }

  function PurgeOne(f: Fifo, player: nat, except: nat): Fifo {
    if Purged(f.key, player, except) then FREE else f
  }

  function Purge(fifos: seq<Fifo>, player: nat, except: nat): (r: seq<Fifo>)
    ensures |r| == |fifos|
  {
    seq(|fifos|, i requires 0 <= i < |fifos| => PurgeOne(fifos[i], player, except))
  }

  function Appended(f: Fifo, c: Sample): Fifo {
    var kept := if |f.items| == FIFO_DEPTH then f.items[1..] else f.items;
    Fifo(f.key, kept + [c], Some(c.sequence))
  }

  /** Where a state goes, before the sequence test: its own fifo, else the first free one. */
  function Target(fifos: seq<Fifo>, key: Key): (slot: nat)
    ensures slot <= |fifos|
  {
    var own := Find(fifos, key, 0);
    if own < |fifos| then own else FindFree(fifos, 0)
  }

  function Opened(f: Fifo, key: Key): Fifo {
    if f.key == key then f else Fifo(key, [], None)
  }

  function StateResult(q: Queue, c: Sample): PushResult {
    if !ValidState(c) then Invalid
    else
      var slot := Target(q.fifos, c.key);
      if slot == |q.fifos| then Overflow
      else
        var f := Opened(q.fifos[slot], c.key);
        if f.last.Some? && !Newer(c.sequence, f.last.value) then Stale
        else if |f.items| == FIFO_DEPTH then DroppedOldest else Queued
  }

  predicate Accepted(r: PushResult) { r == Queued || r == DroppedOldest }

  function AfterState(q: Queue, c: Sample): Queue {
    var r := StateResult(q, c);
    if !Accepted(r) then q
    else
      var slot := Target(q.fifos, c.key);
      q.(fifos := q.fifos[slot := Appended(Opened(q.fifos[slot], c.key), c)],
         dropped := if r == DroppedOldest then (q.dropped + 1) % MODULUS else q.dropped)
  }

  function ControlResult(q: Queue, c: Control): PushResult {
    if !(if c.Spawn? then ValidSpawn(c.spawn) else ValidIdentity(c.key)) then Invalid
    else if |q.controls| == MAXIMUM_CONTROLS then Overflow
    else Queued
  }

  function PurgeFor(fifos: seq<Fifo>, c: Control): (r: seq<Fifo>)
    ensures |r| == |fifos|
  {
    match c
    case Spawn(s) => Purge(fifos, s.key.player, s.key.incarnation)
    case Despawn(k) => Purge(fifos, k.player, 0)
  }

  function AfterControl(q: Queue, c: Control): Queue {
    if ControlResult(q, c) != Queued then q
    else q.(controls := q.controls + [c], fifos := PurgeFor(q.fifos, c))
  }

  function Flatten(fifos: seq<Fifo>): seq<Sample> {
    if fifos == [] then [] else Flatten(fifos[..|fifos| - 1]) + fifos[|fifos| - 1].items
  }

  lemma FlattenStep(fifos: seq<Fifo>, i: nat)
    requires i < |fifos|
    ensures Flatten(fifos[..i + 1]) == Flatten(fifos[..i]) + fifos[i].items
  {
    assert fifos[..i + 1][..i] == fifos[..i];
  }

  function Emptied(fifos: seq<Fifo>): (r: seq<Fifo>)
    ensures |r| == |fifos|
  {
    seq(|fifos|, i requires 0 <= i < |fifos| => fifos[i].(items := []))
  }

  function DrainBatch(q: Queue): Batch { Batch(q.controls, Flatten(q.fifos), q.dropped) }

  function AfterDrain(q: Queue): Queue { q.(controls := [], fifos := Emptied(q.fifos)) }

  // ----- the queue as the source keeps it ---------------------------------------------------

  /** One element of the source's array of fifo structures: a ring with its head and count. */
  datatype StateFifo = StateFifo(key: Key, ring: seq<Sample>, head: nat, count: nat, last: Option<u32>)
  {
    ghost predicate Valid() { |ring| == FIFO_DEPTH && head < FIFO_DEPTH && count <= FIFO_DEPTH }

    ghost function Abs(): Fifo
      requires Valid()
    {
      Fifo(key, Ring.View(ring, head, count), last)
    }

    function Cleared(key: Key): (r: StateFifo)
      requires Valid()
      ensures r.Valid() && r.Abs() == Fifo(key, [], None)
    {
      StateFifo(key, ring, 0, 0, None)
    }

    function Drained(): (r: StateFifo)
      requires Valid()
      ensures r.Valid() && r.Abs() == this.Abs().(items := [])
    {
      this.(head := 0, count := 0)
    }
  }

  ghost function AbsAll(cells: seq<StateFifo>): (r: seq<Fifo>)
    requires forall i :: 0 <= i < |cells| ==> cells[i].Valid()
    ensures |r| == |cells| && forall i :: 0 <= i < |cells| ==> r[i] == cells[i].Abs()
  {
    seq(|cells|, i requires 0 <= i < |cells| => cells[i].Abs())
  }

  method AppendToRing(fifo: StateFifo, command: Sample) returns (stored: StateFifo, overwrote: bool)
    requires fifo.Valid()
    ensures stored.Valid() && stored.Abs() == Appended(fifo.Abs(), command)
    ensures overwrote <==> |fifo.Abs().items| == FIFO_DEPTH
  {
    stored, overwrote := fifo, fifo.count == FIFO_DEPTH;
    if overwrote {
      Ring.SlotIsModulo(FIFO_DEPTH, fifo.head, 1);
      Ring.DropRemovesFirst(fifo.ring, fifo.head, fifo.count);
      stored := stored.(head := (stored.head + 1) % FIFO_DEPTH, count := stored.count - 1);
    }
    Ring.SlotIsModulo(FIFO_DEPTH, stored.head, stored.count);
    Ring.PushAppends(stored.ring, stored.head, stored.count, command);
    var cell := (stored.head + stored.count) % FIFO_DEPTH;
    stored := stored.(ring := stored.ring[cell := command], count := stored.count + 1, last := Some(command.sequence));
  }

  method CopyStates(fifo: StateFifo) returns (items: seq<Sample>)
    requires fifo.Valid()
    ensures items == fifo.Abs().items
  {
    items := [];
    for index := 0 to fifo.count
      invariant items == fifo.Abs().items[..index]
    {
      Ring.SlotIsModulo(FIFO_DEPTH, fifo.head, index);
      items := items + [fifo.ring[(fifo.head + index) % FIFO_DEPTH]];
    }
  }

  class RemoteCommandQueue {
    const controls: array<Control>
    var controlCount: nat
    const fifos: array<StateFifo>
    var dropped: u32

    ghost predicate Valid()
      reads this, fifos
    {
      && controls.Length == MAXIMUM_CONTROLS && controlCount <= MAXIMUM_CONTROLS
      && fifos.Length == MAXIMUM_PLAYERS
      && forall i :: 0 <= i < fifos.Length ==> fifos[i].Valid()
    }

    ghost function Fifos(): (r: seq<Fifo>)
      reads this, fifos
      requires Valid()
      ensures |r| == fifos.Length
    {
      AbsAll(fifos[..])
    }

    ghost function Abs(): Queue
      reads this, controls, fifos
      requires Valid()
    {
      Queue(controls[..controlCount], Fifos(), dropped)
    }

    constructor ()
      ensures Valid() && Abs() == Empty() && fresh(controls) && fresh(fifos)
    {
      controls := new Control[MAXIMUM_CONTROLS];
      var blank: Sample := *;
      var cells := seq(FIFO_DEPTH, _ => blank);
      fifos := new StateFifo[MAXIMUM_PLAYERS](_ => StateFifo(Key(0, 0), cells, 0, 0, None));
      controlCount, dropped := 0, 0;
      new;
      assert Fifos() == Empty().fifos;
    }

    method RemoveStatesForPlayer(player: nat, except: nat)
      requires Valid()
      modifies fifos
      ensures Valid() && Fifos() == Purge(old(Fifos()), player, except)
    {
      for i := 0 to fifos.Length
        invariant Valid()
        invariant forall j :: 0 <= j < i ==> fifos[j].Abs() == PurgeOne(old(fifos[j]).Abs(), player, except)
        invariant forall j :: i <= j < fifos.Length ==> fifos[j] == old(fifos[j])
      {
        var fifo := fifos[i];
        var remove := fifo.key.player == player && (except == 0 || fifo.key.incarnation != except);
        if remove {
          fifos[i] := fifo.Cleared(Key(0, 0));
        }
      }
    }

    method FindFifo(key: Key) returns (slot: nat)
      requires Valid()
      ensures slot == Find(Fifos(), key, 0)
    {
      slot := 0;
      while slot < fifos.Length
        invariant slot <= fifos.Length && Find(Fifos(), key, 0) == Find(Fifos(), key, slot)
      {
        if fifos[slot].key == key {
          return;
        }
        slot := slot + 1;
      }
    }

    method FindFreeFifo() returns (slot: nat)
      requires Valid()
      ensures slot == FindFree(Fifos(), 0)
    {
      slot := 0;
      while slot < fifos.Length
        invariant slot <= fifos.Length && FindFree(Fifos(), 0) == FindFree(Fifos(), slot)
      {
        if fifos[slot].key.player == 0 {
          return;
        }
        slot := slot + 1;
      }
    }

    method PushSpawn(command: SpawnCommand) returns (r: PushResult)
      requires Valid()
      modifies this, controls, fifos
      ensures Valid()
      ensures r == ControlResult(old(Abs()), Spawn(command))
      ensures Abs() == AfterControl(old(Abs()), Spawn(command))
    {
      if !ValidSpawn(command) {
        return Invalid;
      }
      if controlCount == controls.Length {
        return Overflow;
      }
      RemoveStatesForPlayer(command.key.player, command.key.incarnation);
      controls[controlCount] := Spawn(command);
      controlCount := controlCount + 1;
      r := Queued;
    }

    method PushDespawn(key: Key) returns (r: PushResult)
      requires Valid()
      modifies this, controls, fifos
      ensures Valid()
      ensures r == ControlResult(old(Abs()), Despawn(key))
      ensures Abs() == AfterControl(old(Abs()), Despawn(key))
    {
      if !ValidIdentity(key) {
        return Invalid;
      }
      if controlCount == controls.Length {
        return Overflow;
      }
      RemoveStatesForPlayer(key.player, 0);
      controls[controlCount] := Despawn(key);
      controlCount := controlCount + 1;
      r := Queued;
    }

    method PushState(command: Sample) returns (r: PushResult)
      requires Valid()
      modifies this, fifos
      ensures Valid()
      ensures r == StateResult(old(Abs()), command)
      ensures Abs() == AfterState(old(Abs()), command)
    {
      if !ValidState(command) {
        return Invalid;
      }
      var slot := FindFifo(command.key);
      var fifo: StateFifo;
      if slot < fifos.Length {
        fifo := fifos[slot];
        if fifo.last.Some? && !Newer(command.sequence, fifo.last.value) {
          return Stale;
        }
      } else {
        slot := FindFreeFifo();
        if slot == fifos.Length {
          return Overflow;
        }
        fifo := fifos[slot].Cleared(command.key);
      }
      r := StoreInSlot(slot, fifo, command);
    }

    /** The second half of PushState: drop the oldest entry of a full ring, then append. */
    method StoreInSlot(slot: nat, fifo: StateFifo, command: Sample) returns (r: PushResult)
      requires Valid() && fifo.Valid() && slot < fifos.Length
      modifies this`dropped, fifos
      ensures Valid()
      ensures Fifos() == old(Fifos())[slot := Appended(fifo.Abs(), command)]
      ensures r == if |fifo.Abs().items| == FIFO_DEPTH then DroppedOldest else Queued
      ensures dropped == if r == DroppedOldest then (old(dropped) + 1) % MODULUS else old(dropped)
    {
      ghost var before := Fifos();
      var stored, overwrote := AppendToRing(fifo, command);
      fifos[slot] := stored;
      assert Fifos() == before[slot := Appended(fifo.Abs(), command)];
      r := Queued;
      if overwrote {
        dropped := (dropped + 1) % MODULUS;
        r := DroppedOldest;
      }
    }

    /** The lock may be held by the producer; then nothing is drained. */
    method TryDrain() returns (ok: bool, batch: Batch)
      requires Valid()
      modifies this, fifos
      ensures Valid()
      ensures ok ==> batch == DrainBatch(old(Abs())) && Abs() == AfterDrain(old(Abs()))
      ensures !ok ==> Abs() == old(Abs())
    {
      ok, batch := *, *;
      if ok {
        batch := Drain();
      }
    }

    method Drain() returns (batch: Batch)
      requires Valid()
      modifies this, fifos
      ensures Valid()
      ensures batch == DrainBatch(old(Abs()))
      ensures Abs() == AfterDrain(old(Abs()))
    {
      ghost var before := Fifos();
      var states := [];
      for i := 0 to fifos.Length
        invariant Valid() && unchanged(this)
        invariant states == Flatten(before[..i])
        invariant forall j :: 0 <= j < i ==> fifos[j].Abs() == before[j].(items := [])
        invariant forall j :: i <= j < fifos.Length ==> fifos[j] == old(fifos[j])
      {
        var items := CopyStates(fifos[i]);
        states := states + items;
        FlattenStep(before, i);
        fifos[i] := fifos[i].Drained();
      }
      assert before[..fifos.Length] == before;
      batch := Batch(controls[..controlCount], states, dropped);
      controlCount := 0;
    }

    method Clear()
      requires Valid()
      modifies this, fifos
      ensures Valid() && Abs() == Empty()
    {
      controlCount := 0;
      for i := 0 to fifos.Length
        invariant Valid() && controlCount == 0
        invariant forall j :: 0 <= j < i ==> fifos[j].Abs() == FREE
      {
        fifos[i] := fifos[i].Cleared(Key(0, 0));
      }
      dropped := 0;
      assert Fifos() == Empty().fifos;
    }
  }
}
