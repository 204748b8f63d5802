/** bridge/remote_actor_backend.cpp: the slot table of the game thread and the three structures that
    must stay in step with it: registry, collision index and published player ids. */
module ActorBackend {
  import opened GamePointers
  import opened Options
  import opened Serial
  import CommandQueue
  import Registry = ActorRegistry
  import CollisionIndex

  const SLOTS := 7
  const RETRY_MS := 1000

  type Key = CommandQueue.Key
  type Binding = Registry.Binding

  datatype RemoteSlot = RemoteSlot(
    key: Key, vehicleType: nat, paint: nat, occupied: bool, hasState: bool, state: State,
    hasApplied: bool, applied: u32, aiPlayer: u32, gamePlayer: u32, candidate: u32, vehicle: u32, physics: u32,
    generation: u32, retryAfter: nat)

  type Control = CommandQueue.Control
  type State = CommandQueue.Sample

  const NO_KEY := CommandQueue.Key(0, 0)
  const NO_STATE := CommandQueue.Sample(NO_KEY, 0, 0, 0, 0, (0.0, 0.0, 0.0, 0.0), false, 0)
  const FREE := RemoteSlot(NO_KEY, 0, 0, false, false, NO_STATE, false, 0, 0, 0, 0, 0, 0, 0, 0)

  function MovingItem(vehicle: u32, offset: u32): u32 { (vehicle + offset) % MODULUS }

  function BindingOf(s: RemoteSlot, offset: u32): Binding {
    Registry.Binding(s.key, s.gamePlayer, s.generation, s.vehicle, MovingItem(s.vehicle, offset), s.physics)
  }

  // ----- slots and registry in step ---------------------------------------------------------

  predicate SlotInv(s: RemoteSlot) {
    && (s.vehicle != 0 <==> s.generation != 0)
    && (s.vehicle != 0 ==> s.occupied && s.aiPlayer != 0)
    && (!s.occupied ==> s == FREE)
  }

  /** At most one occupied slot per player. */
  ghost predicate SlotsInv(slots: seq<RemoteSlot>) {
    && |slots| == SLOTS
    && (forall i {:trigger slots[i]} :: 0 <= i < SLOTS ==> SlotInv(slots[i]))
    && (forall i, j {:trigger slots[i], slots[j]} :: 0 <= i < j < SLOTS && slots[i].occupied && slots[j].occupied ==>
                                                       slots[i].key.player != slots[j].key.player)
  }

  ghost predicate Held(slots: seq<RemoteSlot>, b: Binding, offset: u32) {
    exists i {:trigger slots[i]} :: 0 <= i < |slots| && slots[i].vehicle != 0 && BindingOf(slots[i], offset) == b
  }

  /** The bindings are exactly those of the slots with a vehicle, generation included. */
  ghost predicate InStep(slots: seq<RemoteSlot>, bindings: seq<Binding>, offset: u32) {
    && (forall b {:trigger b in bindings} :: b in bindings ==> Held(slots, b, offset))
    && (forall i {:trigger slots[i]} ::
          0 <= i < |slots| && slots[i].vehicle != 0 ==> BindingOf(slots[i], offset) in bindings)
  }

  function Unbound(s: RemoteSlot): RemoteSlot { s.(generation := 0, vehicle := 0, physics := 0, candidate := 0) }

  function Destroyed(s: RemoteSlot): RemoteSlot { Unbound(s).(aiPlayer := 0, gamePlayer := 0, hasApplied := false) }

  /** A slot whose generation is set always finds its binding: the ignored result of Erase is
      Removed, and erasing it keeps slots and registry in step. */
  lemma EraseIsRemoved(slots: seq<RemoteSlot>, t: Registry.Table, offset: u32, i: nat)
    requires SlotsInv(slots) && Registry.Inv(t) && InStep(slots, t.bindings, offset)
    requires i < SLOTS && slots[i].generation != 0
    ensures Registry.EraseOutcome(t, slots[i].key, slots[i].generation) == Registry.Removed
    ensures InStep(slots[i := Unbound(slots[i])], Registry.AfterErase(t, slots[i].key, slots[i].generation).bindings,
                   offset)
  {
    Registry.EraseIsExact(t, slots[i].key, slots[i].generation);
    assert BindingOf(slots[i], offset) in t.bindings;
    UnboundInStep(slots, t.bindings, Registry.AfterErase(t, slots[i].key, slots[i].generation).bindings, offset, i);
  }

  lemma UnboundInStep(slots: seq<RemoteSlot>, bindings: seq<Binding>, rest: seq<Binding>, offset: u32, i: nat)
    requires SlotsInv(slots) && InStep(slots, bindings, offset) && i < SLOTS && slots[i].vehicle != 0
    requires forall b ::
               b in rest <==> b in bindings && !(b.remote == slots[i].key && b.generation == slots[i].generation)
    ensures InStep(slots[i := Unbound(slots[i])], rest, offset)
  {
    var slots' := slots[i := Unbound(slots[i])];
    forall b | b in rest
      ensures Held(slots', b, offset)
    {
      var j :| 0 <= j < SLOTS && slots[j].vehicle != 0 && BindingOf(slots[j], offset) == b;
      assert slots'[j] == slots[j];
    }
  }

  lemma UnboundKeeps(slots: seq<RemoteSlot>, i: nat)
    requires SlotsInv(slots) && i < SLOTS
    ensures SlotsInv(slots[i := Unbound(slots[i])]) && SlotsInv(slots[i := Destroyed(slots[i])])
            && SlotsInv(slots[i := FREE])
  {
  }

  /** A slot without a vehicle can change freely. */
  lemma VacantKeeps(slots: seq<RemoteSlot>, bindings: seq<Binding>, offset: u32, i: nat, s: RemoteSlot)
    requires InStep(slots, bindings, offset) && i < |slots| && slots[i].vehicle == 0 && s.vehicle == 0
    ensures InStep(slots[i := s], bindings, offset)
  {
    var slots' := slots[i := s];
    forall b | b in bindings
      ensures Held(slots', b, offset)
    {
      var j :| 0 <= j < |slots| && slots[j].vehicle != 0 && BindingOf(slots[j], offset) == b;
      assert slots'[j] == slots[j];
    }
  }

  lemma AttachKeeps(slots: seq<RemoteSlot>, bindings: seq<Binding>, offset: u32, i: nat, s: RemoteSlot)
    requires InStep(slots, bindings, offset) && i < |slots| && slots[i].vehicle == 0 && s.vehicle != 0
    ensures InStep(slots[i := s], bindings + [BindingOf(s, offset)], offset)
  {
    var slots', after := slots[i := s], bindings + [BindingOf(s, offset)];
    forall b | b in after
      ensures Held(slots', b, offset)
    {
      if b in bindings {
        var j :| 0 <= j < |slots| && slots[j].vehicle != 0 && BindingOf(slots[j], offset) == b;
        assert slots'[j] == slots[j];
      } else {
        assert slots'[i] == s;
      }
    }
  }

  // ----- what an insertion can answer -------------------------------------------------------

  /** The binding of a slot without a vehicle never conflicts with another player's and never finds
      the registry full: only a clash of game identities or an invalid binding can refuse it. */
  lemma InsertRefusals(slots: seq<RemoteSlot>, t: Registry.Table, offset: u32, i: nat, c: Binding)
    requires SlotsInv(slots) && Registry.Inv(t) && InStep(slots, t.bindings, offset)
    requires i < SLOTS && slots[i].occupied && slots[i].vehicle == 0 && c.remote == slots[i].key
    ensures Registry.InsertOutcome(t, c) in {Registry.Inserted, Registry.Invalid, Registry.GameIdentityConflict}
  {
    forall b | b in t.bindings
      ensures b.remote.player != c.remote.player
    {
      var j :| 0 <= j < SLOTS && slots[j].vehicle != 0 && BindingOf(slots[j], offset) == b;
      assert slots[i].key.player != slots[j].key.player;
    }
    FewBindings(slots, t.bindings, offset, i);
  }

  lemma FewBindings(slots: seq<RemoteSlot>, bindings: seq<Binding>, offset: u32, i: nat)
    requires |slots| == SLOTS && InStep(slots, bindings, offset) && i < SLOTS && slots[i].vehicle == 0
    requires forall j, k :: 0 <= j < k < |bindings| ==> bindings[j].remote.player != bindings[k].remote.player
    ensures |bindings| < SLOTS
  {
    var players := set b | b in bindings :: b.remote.player;
    PlayersAreMany(bindings, players);
    var others := {0, 1, 2, 3, 4, 5, 6} - {i};
    forall b | b in bindings
      ensures exists j :: j in others && slots[j].key.player == b.remote.player
    {
      var j :| 0 <= j < SLOTS && slots[j].vehicle != 0 && BindingOf(slots[j], offset) == b;
      assert j in others;
    }
    ImageIsSmaller(slots, others, players);
  }

  lemma {:induction false} PlayersAreMany(bindings: seq<Binding>, players: set<nat>)
    requires forall j, k :: 0 <= j < k < |bindings| ==> bindings[j].remote.player != bindings[k].remote.player
    requires players == set b | b in bindings :: b.remote.player
    ensures |players| == |bindings|
  {
    if bindings != [] {
      var last, rest := bindings[|bindings| - 1], bindings[..|bindings| - 1];
      assert bindings == rest + [last];
      var fewer := set b | b in rest :: b.remote.player;
      PlayersAreMany(rest, fewer);
      assert players == fewer + {last.remote.player};
    }
  }

  lemma {:induction false} ImageIsSmaller(slots: seq<RemoteSlot>, indices: set<int>, image: set<nat>)
    requires forall j :: j in indices ==> 0 <= j < |slots|
    requires forall p :: p in image ==> exists j :: j in indices && slots[j].key.player == p
    ensures |image| <= |indices|
    decreases |image|
  {
    if image != {} {
      var p :| p in image;
      var j :| j in indices && slots[j].key.player == p;
      forall q | q in image - {p}
        ensures exists k :: k in indices - {j} && slots[k].key.player == q
      {
        var k :| k in indices && slots[k].key.player == q;
        assert k in indices - {j};
      }
      ImageIsSmaller(slots, indices - {j}, image - {p});
    }
  }

  // ----- who plays --------------------------------------------------------------------------

  function FindPlayer(slots: seq<RemoteSlot>, player: nat, from: nat): (i: nat)
    requires from <= |slots|
    ensures from <= i <= |slots|
    ensures i < |slots| ==> slots[i].occupied && slots[i].key.player == player
    ensures forall j :: from <= j < i ==> !(slots[j].occupied && slots[j].key.player == player)
    decreases |slots| - from
  {
    if from == |slots| || (slots[from].occupied && slots[from].key.player == player) then from
    else FindPlayer(slots, player, from + 1)
  }

  function FindKey(slots: seq<RemoteSlot>, key: Key, from: nat): (i: nat)
    requires from <= |slots|
    ensures from <= i <= |slots|
    ensures i < |slots| ==> slots[i].occupied && slots[i].key == key
    ensures forall j :: from <= j < i ==> !(slots[j].occupied && slots[j].key == key)
    decreases |slots| - from
  {
    if from == |slots| || (slots[from].occupied && slots[from].key == key) then from else FindKey(slots, key, from + 1)
  }

  function FindVacant(slots: seq<RemoteSlot>, from: nat): (i: nat)
    requires from <= |slots|
    ensures from <= i <= |slots|
    ensures i < |slots| ==> !slots[i].occupied
    ensures forall j :: from <= j < i ==> slots[j].occupied
    decreases |slots| - from
  {
    if from == |slots| || !slots[from].occupied then from else FindVacant(slots, from + 1)
  }

  function Seated(key: Key, vehicleType: nat, paint: nat): RemoteSlot {
    FREE.(occupied := true, key := key, vehicleType := vehicleType, paint := paint)
  }

  /** A spawn first evicts the player's other incarnation. */
  function Evicted(slots: seq<RemoteSlot>, key: Key): (r: seq<RemoteSlot>)
    ensures |r| == |slots|
  {
    var i := FindPlayer(slots, key.player, 0);
    if i < |slots| && slots[i].key != key then slots[i := FREE] else slots
  }

  function AfterSpawn(slots: seq<RemoteSlot>, c: CommandQueue.SpawnCommand): (r: seq<RemoteSlot>)
    ensures |r| == |slots|
  {
    var rest := Evicted(slots, c.key);
    var i := FindVacant(rest, 0);
    if FindKey(rest, c.key, 0) < |rest| || i == |rest| then rest else rest[i := Seated(c.key, c.vehicle, c.paint)]
  }

  /** No slot is left: the bridge asks for safe mode. */
  predicate Overflows(slots: seq<RemoteSlot>, key: Key) {
    var rest := Evicted(slots, key);
    FindKey(rest, key, 0) == |rest| && FindVacant(rest, 0) == |rest|
  }

  function AfterDespawn(slots: seq<RemoteSlot>, key: Key): (r: seq<RemoteSlot>)
    ensures |r| == |slots|
  {
    var i := FindPlayer(slots, key.player, 0);
    if i < |slots| && slots[i].key.incarnation == key.incarnation then slots[i := FREE] else slots
  }

  function AfterControl(slots: seq<RemoteSlot>, c: Control): (r: seq<RemoteSlot>)
    ensures |r| == |slots|
  {
    match c
    case Spawn(s) => AfterSpawn(slots, s)
    case Despawn(k) => AfterDespawn(slots, k)
  }

  predicate Mismatched(slots: seq<RemoteSlot>, s: State) {
    var i := FindKey(slots, s.key, 0);
    i < |slots| && (s.vehicle != slots[i].vehicleType || s.paint != slots[i].paint)
  }

  function AfterState(slots: seq<RemoteSlot>, s: State): (r: seq<RemoteSlot>)
    ensures |r| == |slots|
  {
    var i := FindKey(slots, s.key, 0);
    if i == |slots| || Mismatched(slots, s) || (slots[i].hasState && !Newer(s.sequence, slots[i].state.sequence)) then
      slots
    else slots[i := slots[i].(state := s, hasState := true)]
  }

  function AfterControls(slots: seq<RemoteSlot>, controls: seq<Control>): (r: seq<RemoteSlot>)
    ensures |r| == |slots|
  {
    if controls == [] then slots
    else AfterControl(AfterControls(slots, controls[..|controls| - 1]), controls[|controls| - 1])
  }

  function AfterStates(slots: seq<RemoteSlot>, states: seq<State>): (r: seq<RemoteSlot>)
    ensures |r| == |slots|
  {
    if states == [] then slots else AfterState(AfterStates(slots, states[..|states| - 1]), states[|states| - 1])
  }

  /** Some state of the batch has another vehicle or paint than its slot. */
  predicate SomeMismatch(slots: seq<RemoteSlot>, states: seq<State>) {
    states != [] &&
    var prior := states[..|states| - 1];
    SomeMismatch(slots, prior) || Mismatched(AfterStates(slots, prior), states[|states| - 1])
  }

  ghost predicate Plays(slots: seq<RemoteSlot>, k: Key) {
    exists i {:trigger slots[i]} :: 0 <= i < |slots| && slots[i].occupied && slots[i].key == k
  }

  /** The roster the controls describe, without any capacity. */
  function RosterAfter(roster: map<nat, nat>, c: Control): map<nat, nat> {
    match c
    case Spawn(s) => roster[s.key.player := s.key.incarnation]
    case Despawn(k) => if k.player in roster && roster[k.player] == k.incarnation then roster - {k.player} else roster
  }

  ghost predicate Agrees(slots: seq<RemoteSlot>, roster: map<nat, nat>) {
    forall k {:trigger Plays(slots, k)} :: Plays(slots, k) <==> k.player in roster && roster[k.player] == k.incarnation
  }

  /** The slot table refines the roster: while that has at most seven players, the slots hold exactly
      its members and the spawn of an eighth player is the only one that can overflow. */
  lemma ControlRefinesRoster(slots: seq<RemoteSlot>, roster: map<nat, nat>, c: Control)
    requires SlotsInv(slots) && Agrees(slots, roster) && |RosterAfter(roster, c)| <= SLOTS
    ensures SlotsInv(AfterControl(slots, c)) && Agrees(AfterControl(slots, c), RosterAfter(roster, c))
    ensures c.Spawn? ==> !Overflows(slots, c.spawn.key)
  {
    match c
    case Spawn(s) => SpawnRefinesRoster(slots, roster, s);
    case Despawn(k) => DespawnRefinesRoster(slots, roster, k);
  }

  function RosterRun(roster: map<nat, nat>, controls: seq<Control>): map<nat, nat> {
    if controls == [] then roster
    else RosterAfter(RosterRun(roster, controls[..|controls| - 1]), controls[|controls| - 1])
  }

  /** The roster never has more than seven players. */
  predicate Fits(roster: map<nat, nat>, controls: seq<Control>) {
    |RosterRun(roster, controls)| <= SLOTS && (controls != [] ==> Fits(roster, controls[..|controls| - 1]))
  }

  /** No spawn of the run finds every slot taken. */
  predicate NeverOverflows(slots: seq<RemoteSlot>, controls: seq<Control>) {
    controls != [] ==>
      var prior, last := controls[..|controls| - 1], controls[|controls| - 1];
      NeverOverflows(slots, prior) && (last.Spawn? ==> !Overflows(AfterControls(slots, prior), last.spawn.key))
  }

  /** Over a whole run of controls that never describes more than seven players, the slots hold
      exactly the roster and nothing ever overflows. */
  lemma {:induction false} ControlsRefineRoster(slots: seq<RemoteSlot>, roster: map<nat, nat>, controls: seq<Control>)
    requires SlotsInv(slots) && Agrees(slots, roster) && Fits(roster, controls)
    ensures SlotsInv(AfterControls(slots, controls))
            && Agrees(AfterControls(slots, controls), RosterRun(roster, controls))
    ensures NeverOverflows(slots, controls)
  {
    if controls != [] {
      var prior := controls[..|controls| - 1];
      ControlsRefineRoster(slots, roster, prior);
      ControlRefinesRoster(AfterControls(slots, prior), RosterRun(roster, prior), controls[|controls| - 1]);
    }
  }

  lemma SpawnRefinesRoster(slots: seq<RemoteSlot>, roster: map<nat, nat>, c: CommandQueue.SpawnCommand)
    requires SlotsInv(slots) && Agrees(slots, roster)
    requires |roster[c.key.player := c.key.incarnation]| <= SLOTS
    ensures SlotsInv(AfterSpawn(slots, c)) && Agrees(AfterSpawn(slots, c), roster[c.key.player := c.key.incarnation])
    ensures !Overflows(slots, c.key)
  {
    EvictedPlays(slots, c.key);
    if Overflows(slots, c.key) {
      FullTable(slots, roster, c.key);
      assert false;
    }
    SeatedPlays(Evicted(slots, c.key), c);
  }

  lemma DespawnRefinesRoster(slots: seq<RemoteSlot>, roster: map<nat, nat>, k: Key)
    requires SlotsInv(slots) && Agrees(slots, roster)
    ensures SlotsInv(AfterDespawn(slots, k))
            && Agrees(AfterDespawn(slots, k), RosterAfter(roster, CommandQueue.Despawn(k)))
  {
    var i := FindPlayer(slots, k.player, 0);
    if AfterDespawn(slots, k) != slots {
      assert slots[i].key == k && Plays(slots, k);
      FreedPlays(slots, i);
    } else {
      assert !Plays(slots, k);
    }
  }

  lemma FreedPlays(slots: seq<RemoteSlot>, i: nat)
    requires SlotsInv(slots) && i < SLOTS && slots[i].occupied
    ensures SlotsInv(slots[i := FREE])
    ensures forall k :: Plays(slots[i := FREE], k) <==> Plays(slots, k) && k.player != slots[i].key.player
  {
    var after := slots[i := FREE];
    forall k
      ensures Plays(after, k) <==> Plays(slots, k) && k.player != slots[i].key.player
    {
      if Plays(after, k) {
        var j :| 0 <= j < SLOTS && after[j].occupied && after[j].key == k;
        assert slots[j] == after[j] && j != i;
      }
      if Plays(slots, k) && k.player != slots[i].key.player {
        var j :| 0 <= j < SLOTS && slots[j].occupied && slots[j].key == k;
        assert after[j] == slots[j];
      }
    }
  }

  lemma EvictedPlays(slots: seq<RemoteSlot>, key: Key)
    requires SlotsInv(slots)
    ensures SlotsInv(Evicted(slots, key))
    ensures forall k :: Plays(Evicted(slots, key), k) <==> Plays(slots, k) && (k.player == key.player ==> k == key)
  {
    var i := FindPlayer(slots, key.player, 0);
    if i < SLOTS {
      if slots[i].key != key {
        FreedPlays(slots, i);
      }
    }
  }

  lemma SeatedPlays(rest: seq<RemoteSlot>, c: CommandQueue.SpawnCommand)
    requires SlotsInv(rest) && forall k :: Plays(rest, k) && k.player == c.key.player ==> k == c.key
    requires FindKey(rest, c.key, 0) < SLOTS || FindVacant(rest, 0) < SLOTS
    ensures var i := FindVacant(rest, 0);
            var after := if FindKey(rest, c.key, 0) < SLOTS || i == SLOTS then rest
                         else rest[i := Seated(c.key, c.vehicle, c.paint)];
            SlotsInv(after) && forall k :: Plays(after, k) <==> k == c.key || Plays(rest, k)
  {
    var i := FindVacant(rest, 0);
    if FindKey(rest, c.key, 0) < SLOTS {
      assert Plays(rest, c.key);
    } else {
      var after := rest[i := Seated(c.key, c.vehicle, c.paint)];
      forall j | 0 <= j < SLOTS && rest[j].occupied
        ensures rest[j].key.player != c.key.player
      {
        assert Plays(rest, rest[j].key);
      }
      forall k
        ensures Plays(after, k) <==> k == c.key || Plays(rest, k)
      {
        assert after[i].key == c.key;
        if Plays(rest, k) {
          var j :| 0 <= j < SLOTS && rest[j].occupied && rest[j].key == k;
          assert after[j] == rest[j];
        }
        if Plays(after, k) && k != c.key {
          var j :| 0 <= j < SLOTS && after[j].occupied && after[j].key == k;
          assert after[j] == rest[j];
        }
      }
    }
  }

  lemma FullTable(slots: seq<RemoteSlot>, roster: map<nat, nat>, key: Key)
    requires SlotsInv(slots) && Agrees(slots, roster) && Overflows(slots, key)
    ensures |roster[key.player := key.incarnation]| > SLOTS
  {
    var i := FindPlayer(slots, key.player, 0);
    assert Evicted(slots, key) == slots;
    forall j | 0 <= j < SLOTS
      ensures slots[j].key.player in roster.Keys && slots[j].key.player != key.player
    {
      assert Plays(slots, slots[j].key);
    }
    DistinctPlayers(slots, SLOTS, roster.Keys);
    var seat := if key.player in roster then roster[key.player] else 0;
    assert !Plays(slots, CommandQueue.Key(key.player, seat));
    assert roster[key.player := key.incarnation].Keys == roster.Keys + {key.player};
  }

  lemma {:induction false} DistinctPlayers(slots: seq<RemoteSlot>, n: nat, players: set<nat>)
    requires SlotsInv(slots) && n <= SLOTS
    requires forall j :: 0 <= j < n ==> slots[j].occupied && slots[j].key.player in players
    ensures |players| >= n
  {
    if n > 0 {
      var p := slots[n - 1].key.player;
      DistinctPlayers(slots, n - 1, players - {p});
    }
  }

  // ----- what is published ------------------------------------------------------------------

  /** The published player ids: the plausible ones of the occupied slots, in slot order. */
  function LiveIds(slots: seq<RemoteSlot>): (ids: seq<u32>)
    ensures |ids| <= |slots|
  {
    if slots == [] then []
    else
      var s, before := slots[|slots| - 1], LiveIds(slots[..|slots| - 1]);
      if s.occupied && Plausible(s.gamePlayer) then before + [s.gamePlayer] else before
  }

  function Padded(ids: seq<u32>): (r: seq<u32>)
    requires |ids| <= SLOTS
    ensures |r| == SLOTS
  {
    ids + seq(SLOTS - |ids|, _ => 0)
  }

  method PublishIds(slots: seq<RemoteSlot>, ids: array<u32>)
    requires |slots| == SLOTS == ids.Length
    modifies ids
    ensures ids[..] == Padded(LiveIds(slots))
  {
    var output := 0;
    for i := 0 to |slots|
      invariant output == |LiveIds(slots[..i])| <= i
      invariant ids[..output] == LiveIds(slots[..i])
    {
      assert slots[..i + 1][..i] == slots[..i];
      if slots[i].occupied && Plausible(slots[i].gamePlayer) && output < ids.Length {
        ids[output] := slots[i].gamePlayer;
        output := output + 1;
      }
    }
    assert slots[..|slots|] == slots;
    ghost var live := LiveIds(slots);
    while output < ids.Length
      invariant |live| <= output <= SLOTS
      invariant ids[..output] == live + seq(output - |live|, _ => 0)
    {
      ids[output] := 0;
      output := output + 1;
    }
  }

  /** The published index names exactly the moving items of the slots with a vehicle. */
  lemma IndexIsMovingItems(slots: seq<RemoteSlot>, t: Registry.Table, offset: u32, word: u32)
    requires SlotsInv(slots) && Registry.Inv(t) && InStep(slots, t.bindings, offset) && word != 0
    ensures word in CollisionIndex.Words(t.bindings) <==>
            exists i :: 0 <= i < SLOTS && slots[i].vehicle != 0 && MovingItem(slots[i].vehicle, offset) == word
  {
    var words := CollisionIndex.Words(t.bindings);
    if word in words {
      var k :| 0 <= k < |words| && words[k] == word;
      assert t.bindings[k] in t.bindings;
      var i :| 0 <= i < SLOTS && slots[i].vehicle != 0 && BindingOf(slots[i], offset) == t.bindings[k];
    }
    if i :| 0 <= i < SLOTS && slots[i].vehicle != 0 && MovingItem(slots[i].vehicle, offset) == word {
      var k :| 0 <= k < |t.bindings| && t.bindings[k] == BindingOf(slots[i], offset);
      assert words[k] == word;
    }
  }

  lemma {:induction false} SameLiveIds(slots: seq<RemoteSlot>, i: nat, s: RemoteSlot)
    requires i < |slots|
    requires Plausible(s.gamePlayer) && s.occupied <==> Plausible(slots[i].gamePlayer) && slots[i].occupied
    requires s.gamePlayer == slots[i].gamePlayer || !Plausible(s.gamePlayer)
    ensures LiveIds(slots[i := s]) == LiveIds(slots)
  {
    var n := |slots| - 1;
    if i < n {
      assert slots[i := s][..n] == slots[..n][i := s];
      SameLiveIds(slots[..n], i, s);
    } else {
      assert slots[i := s][..n] == slots[..n];
    }
  }

  /** The one slot that changed, the binding of which is unaffected. */
  lemma SameBindingKeeps(slots: seq<RemoteSlot>, bindings: seq<Binding>, offset: u32, i: nat, s: RemoteSlot)
    requires SlotsInv(slots) && InStep(slots, bindings, offset) && i < SLOTS && SlotInv(s)
    requires s.key == slots[i].key && s.occupied == slots[i].occupied && s.vehicle == slots[i].vehicle
    requires s.vehicle != 0 ==> BindingOf(s, offset) == BindingOf(slots[i], offset)
    ensures SlotsInv(slots[i := s]) && InStep(slots[i := s], bindings, offset)
  {
    var slots' := slots[i := s];
    forall b | b in bindings
      ensures Held(slots', b, offset)
    {
      var j :| 0 <= j < SLOTS && slots[j].vehicle != 0 && BindingOf(slots[j], offset) == b;
      assert j == i || slots'[j] == slots[j];
      assert BindingOf(slots'[j], offset) == b;
    }
  }

  predicate SameButCandidate(a: RemoteSlot, b: RemoteSlot) { b == a.(candidate := b.candidate) }

  predicate SameButCandidates(before: seq<RemoteSlot>, after: seq<RemoteSlot>) {
    |before| == |after| && forall i :: 0 <= i < |before| ==> SameButCandidate(before[i], after[i])
  }

  predicate SameSeat(a: RemoteSlot, b: RemoteSlot) {
    && (a.occupied, a.key, a.vehicleType, a.paint) == (b.occupied, b.key, b.vehicleType, b.paint)
    && (a.hasState, a.state) == (b.hasState, b.state)
  }

  function FindActor(slots: seq<RemoteSlot>, player: u32, from: nat): (i: nat)
    requires from <= |slots|
    ensures from <= i <= |slots|
    ensures i < |slots| ==> slots[i].occupied && slots[i].gamePlayer == player
    ensures forall j :: from <= j < i ==> !(slots[j].occupied && slots[j].gamePlayer == player)
    decreases |slots| - from
  {
    if from == |slots| || (slots[from].occupied && slots[from].gamePlayer == player) then from
    else FindActor(slots, player, from + 1)
  }

  /** The vehicle becomes the candidate of the first slot with that actor. */
  function Constructed(slots: seq<RemoteSlot>, player: u32, vehicle: u32): (r: seq<RemoteSlot>)
    ensures SameButCandidates(slots, r)
  {
    var i := FindActor(slots, player, 0);
    if i < |slots| then slots[i := slots[i].(candidate := vehicle)] else slots
  }

  /** Who plays, and every player's newest state, is unchanged. */
  predicate SameSeats(before: seq<RemoteSlot>, after: seq<RemoteSlot>) {
    |before| == |after| && forall i :: 0 <= i < |before| ==> SameSeat(before[i], after[i])
  }

  /** A new actor, perhaps with new candidates, changes no seat. */
  lemma ActorKeepsSeats(before: seq<RemoteSlot>, after: seq<RemoteSlot>, i: nat, ai: u32, player: u32)
    requires i < |before| && SameButCandidates(before[i := before[i].(aiPlayer := ai, gamePlayer := player)], after)
    ensures SameSeats(before, after)
  {
    forall j | 0 <= j < |before|
      ensures SameSeat(before[j], after[j])
    {
      assert SameButCandidate(before[i := before[i].(aiPlayer := ai, gamePlayer := player)][j], after[j]);
    }
  }

  lemma RetryKeepsSeats(before: seq<RemoteSlot>, after: seq<RemoteSlot>, i: nat, retryAfter: nat)
    requires i < |after| && SameSeats(before, after)
    ensures SameSeats(before, after[i := after[i].(retryAfter := retryAfter)])
  {
  }

  /** The slot has no vehicle yet and the game confirmed its candidate. */
  predicate Confirmed(s: RemoteSlot, answer: Option<u32>) {
    s.vehicle == 0 && s.candidate != 0 && answer.Some? && Plausible(s.candidate)
  }

  function Wanted(s: RemoteSlot, physics: u32, offset: u32): Binding {
    Registry.Binding(s.key, s.gamePlayer, 0, s.candidate, MovingItem(s.candidate, offset), physics)
  }

  function Attached(s: RemoteSlot, wanted: Binding, generation: u32): RemoteSlot {
    s.(vehicle := wanted.vehicle, physics := wanted.physics, generation := generation)
  }

  // ----- the table as the source keeps it ---------------------------------------------------

  class Backend {
    const slots: array<RemoteSlot>
    const registry: Registry.RemoteActorRegistry
    const index: CollisionIndex.RemoteCollisionIndex
    const playerIds: array<u32>
    const movingItemOffset: u32
    var safeModeRequested: bool

    ghost function Repr(): set<object> { {this, slots, registry, registry.bindings, index, index.words, playerIds} }

    ghost predicate Valid()
      reads Repr()
    {
      && slots.Length == SLOTS == playerIds.Length && playerIds != index.words
      && registry.Valid() && index.Valid()
      && SlotsInv(slots[..]) && InStep(slots[..], registry.Abs().bindings, movingItemOffset)
    }

    ghost predicate Published()
      reads Repr()
      requires Valid()
    {
      index.words[..] == CollisionIndex.Words(registry.Abs().bindings) && playerIds[..] == Padded(LiveIds(slots[..]))
    }

    constructor (movingItemOffset: u32)
      ensures Valid() && Published() && fresh(Repr()) && slots[..] == seq(SLOTS, _ => FREE)
              && registry.Abs().bindings == []
    {
      this.movingItemOffset, safeModeRequested := movingItemOffset, false;
      slots := new RemoteSlot[SLOTS](_ => FREE);
      registry := new Registry.RemoteActorRegistry();
      index := new CollisionIndex.RemoteCollisionIndex();
      playerIds := new u32[SLOTS](_ => 0);
      new;
      NoLiveIds(slots[..]);
    }

    method PublishHookIndices()
      requires Valid()
      modifies index, index.words, playerIds
      ensures Valid() && Published()
    {
      PublishIds(slots[..], playerIds);
      index.Publish(registry.bindings[..registry.size]);
    }

    method EraseBinding(i: nat)
      requires Valid() && i < SLOTS
      modifies slots, registry, registry.bindings
      ensures Valid() && slots[..] == old(slots[..])[i := Unbound(old(slots[i]))]
      ensures forall b :: b in registry.Abs().bindings ==> b in old(registry.Abs()).bindings
    {
      var s := slots[i];
      UnboundKeeps(slots[..], i);
      if s.generation != 0 {
        EraseIsRemoved(slots[..], registry.Abs(), movingItemOffset, i);
        Registry.EraseIsExact(registry.Abs(), s.key, s.generation);
        var outcome := registry.Erase(s.key, s.generation);
        assert outcome == Registry.Removed; // the source ignores it
      } else {
        VacantKeeps(slots[..], registry.Abs().bindings, movingItemOffset, i, Unbound(s));
      }
      slots[i] := Unbound(s);
      assert slots[..] == old(slots[..])[i := Unbound(s)];
    }

    /** The indices are published before the game is asked to kill the actor; a kill that fails asks for
        safe mode. The answer is false exactly then. */
    method DestroyGameActor(i: nat) returns (killed: bool)
      requires Valid() && i < SLOTS
      modifies Repr()
      ensures Valid() && Published() && slots[..] == old(slots[..])[i := Destroyed(old(slots[i]))]
      ensures forall b :: b in registry.Abs().bindings ==> b in old(registry.Abs()).bindings
      ensures safeModeRequested == (old(safeModeRequested) || !killed)
      ensures !killed ==> Plausible(old(slots[i]).gamePlayer)
    {
      EraseBinding(i);
      PublishHookIndices();
      killed := true;
      if Plausible(slots[i].gamePlayer) {
        killed := *;
        if !killed {
          safeModeRequested := true;
        }
      }
      PutVacant(i, slots[i].(aiPlayer := 0, gamePlayer := 0, hasApplied := false));
      PublishHookIndices();
    }

    /** Changes a slot that has no vehicle. */
    method PutVacant(i: nat, s: RemoteSlot)
      requires Valid() && i < SLOTS && slots[i].vehicle == 0 && s.vehicle == 0 && SlotsInv(slots[..][i := s])
      modifies slots
      ensures Valid() && slots[..] == old(slots[..])[i := s]
    {
      VacantKeeps(slots[..], registry.Abs().bindings, movingItemOffset, i, s);
      slots[i] := s;
      assert slots[..] == old(slots[..])[i := s];
    }

    method ApplySpawn(c: CommandQueue.SpawnCommand) returns (killed: bool)
      requires Valid() && Published()
      modifies Repr()
      ensures Valid() && Published() && slots[..] == AfterSpawn(old(slots[..]), c)
      ensures safeModeRequested == (old(safeModeRequested) || !killed || Overflows(old(slots[..]), c.key))
      ensures Evicted(old(slots[..]), c.key) == old(slots[..]) ==> killed
    {
      killed := true;
      var i := FindPlayer(slots[..], c.key.player, 0);
      if i < slots.Length && slots[i].key != c.key {
        killed := Vacate(i);
      }
      assert slots[..] == Evicted(old(slots[..]), c.key);
      if FindKey(slots[..], c.key, 0) < slots.Length {
        return;
      }
      i := FindVacant(slots[..], 0);
      if i == slots.Length {
        safeModeRequested := true;
        return;
      }
      Seat(i, c);
    }

    method Seat(i: nat, c: CommandQueue.SpawnCommand)
      requires Valid() && Published() && i < SLOTS && !slots[i].occupied
      requires FindPlayer(slots[..], c.key.player, 0) == SLOTS
      modifies slots
      ensures Valid() && Published() && slots[..] == old(slots[..])[i := Seated(c.key, c.vehicle, c.paint)]
    {
      SameLiveIds(slots[..], i, Seated(c.key, c.vehicle, c.paint));
      PutVacant(i, Seated(c.key, c.vehicle, c.paint));
    }

    method Vacate(i: nat) returns (killed: bool)
      requires Valid() && i < SLOTS && slots[i].occupied
      modifies Repr()
      ensures Valid() && Published() && slots[..] == old(slots[..])[i := FREE]
      ensures safeModeRequested == (old(safeModeRequested) || !killed)
    {
      killed := DestroyGameActor(i);
      UnboundKeeps(slots[..], i);
      SameLiveIds(slots[..], i, FREE);
      PutVacant(i, FREE);
    }

    method ApplyDespawn(k: Key) returns (killed: bool)
      requires Valid() && Published()
      modifies Repr()
      ensures Valid() && Published() && slots[..] == AfterDespawn(old(slots[..]), k)
      ensures safeModeRequested == (old(safeModeRequested) || !killed)
      ensures AfterDespawn(old(slots[..]), k) == old(slots[..]) ==> killed
    {
      killed := true;
      var i := FindPlayer(slots[..], k.player, 0);
      if i < slots.Length && slots[i].key.incarnation == k.incarnation {
        killed := Vacate(i);
      }
    }

    method ApplyState(s: State)
      requires Valid() && Published()
      modifies this`safeModeRequested, slots
      ensures Valid() && Published() && slots[..] == AfterState(old(slots[..]), s)
      ensures safeModeRequested == (old(safeModeRequested) || Mismatched(old(slots[..]), s))
    {
      var i := FindKey(slots[..], s.key, 0);
      if i == slots.Length {
        return;
      }
      if s.vehicle != slots[i].vehicleType || s.paint != slots[i].paint {
        safeModeRequested := true;
        return;
      }
      if slots[i].hasState && !Newer(s.sequence, slots[i].state.sequence) {
        return;
      }
      var next := slots[i].(state := s, hasState := true);
      SameLiveIds(slots[..], i, next);
      Put(i, next);
    }

    /** Changes a slot but not its binding. */
    method Put(i: nat, s: RemoteSlot)
      requires Valid() && i < SLOTS && SlotInv(s)
      requires s.key == slots[i].key && s.occupied == slots[i].occupied && s.vehicle == slots[i].vehicle
      requires s.vehicle != 0 ==> BindingOf(s, movingItemOffset) == BindingOf(slots[i], movingItemOffset)
      modifies slots
      ensures Valid() && slots[..] == old(slots[..])[i := s]
    {
      SameBindingKeeps(slots[..], registry.Abs().bindings, movingItemOffset, i, s);
      slots[i] := s;
      assert slots[..] == old(slots[..])[i := s];
    }

    /** A failed kill, a spawn that finds no slot and a state of another vehicle or paint ask for safe
        mode, and nothing else in a batch does. */
    method ApplyBatch(batch: CommandQueue.Batch) returns (killed: bool)
      requires Valid() && Published()
      modifies Repr()
      ensures Valid() && Published()
      ensures slots[..] == AfterStates(AfterControls(old(slots[..]), batch.controls), batch.states)
      ensures safeModeRequested == (old(safeModeRequested) || !killed || !NeverOverflows(old(slots[..]), batch.controls)
                                    || SomeMismatch(AfterControls(old(slots[..]), batch.controls), batch.states))
    {
      killed := ApplyControls(batch.controls);
      ApplyStates(batch.states);
    }

    method ApplyControls(controls: seq<Control>) returns (killed: bool)
      requires Valid() && Published()
      modifies Repr()
      ensures Valid() && Published() && slots[..] == AfterControls(old(slots[..]), controls)
      ensures safeModeRequested == (old(safeModeRequested) || !killed || !NeverOverflows(old(slots[..]), controls))
    {
      killed := true;
      for n := 0 to |controls|
        invariant Valid() && Published() && slots[..] == AfterControls(old(slots[..]), controls[..n])
        invariant safeModeRequested == (old(safeModeRequested) || !killed
                                        || !NeverOverflows(old(slots[..]), controls[..n]))
      {
        assert controls[..n + 1][..n] == controls[..n];
        var done := ApplyControl(controls[n]);
        killed := killed && done;
      }
      assert controls[..|controls|] == controls;
    }

    method ApplyControl(c: Control) returns (killed: bool)
      requires Valid() && Published()
      modifies Repr()
      ensures Valid() && Published() && slots[..] == AfterControl(old(slots[..]), c)
      ensures safeModeRequested == (old(safeModeRequested) || !killed
                                    || (c.Spawn? && Overflows(old(slots[..]), c.spawn.key)))
    {
      match c
      case Spawn(s) => killed := ApplySpawn(s);
      case Despawn(k) => killed := ApplyDespawn(k);
    }

    method ApplyStates(states: seq<State>)
      requires Valid() && Published()
      modifies this`safeModeRequested, slots
      ensures Valid() && Published() && slots[..] == AfterStates(old(slots[..]), states)
      ensures safeModeRequested == (old(safeModeRequested) || SomeMismatch(old(slots[..]), states))
    {
      for n := 0 to |states|
        invariant Valid() && Published() && slots[..] == AfterStates(old(slots[..]), states[..n])
        invariant safeModeRequested == (old(safeModeRequested) || SomeMismatch(old(slots[..]), states[..n]))
      {
        assert states[..n + 1][..n] == states[..n];
        ApplyState(states[n]);
      }
      assert states[..|states|] == states;
    }

    method PurgeAllGameActors() returns (killed: bool)
      requires Valid()
      modifies Repr()
      ensures Valid() && Published() && registry.Abs().bindings == []
      ensures forall j :: 0 <= j < SLOTS ==> slots[j] == Destroyed(old(slots[j]))
      ensures safeModeRequested == (old(safeModeRequested) || !killed)
    {
      killed := true;
      for i := 0 to slots.Length
        invariant Valid()
        invariant forall j :: 0 <= j < SLOTS ==> slots[j] == if j < i then Destroyed(old(slots[j])) else old(slots[j])
        invariant safeModeRequested == (old(safeModeRequested) || !killed)
      {
        var done := DestroyGameActor(i);
        killed := killed && done;
      }
      SomeBinding(slots[..], registry.Abs().bindings, movingItemOffset);
      registry.Clear();
      index.Clear();
      PublishHookIndices();
    }

    /** Attaches the candidate when the game confirms it; a refused insertion asks for safe mode. The
        answer is the physics object the game named. */
    method AttachVehicleIfReady(i: nat) returns (answer: Option<u32>)
      requires Valid() && i < SLOTS && slots[i].occupied && slots[i].aiPlayer != 0
      modifies Repr()
      ensures Valid()
      ensures var s, table := old(slots[i]), old(registry.Abs());
              if !Confirmed(s, answer) then
                slots[..] == old(slots[..]) && registry.Abs() == table && safeModeRequested == old(safeModeRequested)
                && (old(Published()) ==> Published())
              else
                var wanted := Wanted(s, answer.value, movingItemOffset);
                if Registry.InsertOutcome(table, wanted) != Registry.Inserted then
                  slots[..] == old(slots[..]) && registry.Abs() == table && safeModeRequested
                    && (old(Published()) ==> Published())
                else
                  && slots[..] == old(slots[..])[i := Attached(s, wanted, table.next)] && Published()
                  && registry.Abs() == Registry.AfterInsert(table, wanted)
                     && safeModeRequested == old(safeModeRequested)
    {
      var s := slots[i];
      if s.vehicle != 0 || s.candidate == 0 {
        return None;
      }
      var confirmed: bool, physics: u32 := *, *;
      if !confirmed || !Plausible(s.candidate) {
        return None;
      }
      answer := Some(physics);
      var wanted := Wanted(s, physics, movingItemOffset);
      InsertRefusals(slots[..], registry.Abs(), movingItemOffset, i, wanted);
      var outcome, inserted := registry.Insert(wanted);
      assert outcome != Registry.Full && outcome != Registry.RemotePlayerConflict;
      if outcome != Registry.Inserted {
        safeModeRequested := true;
        return;
      }
      var next := s.(vehicle := inserted.vehicle, physics := inserted.physics, generation := inserted.generation);
      AttachKeeps(slots[..], old(registry.Abs()).bindings, movingItemOffset, i, next);
      slots[i] := next;
      assert slots[..] == old(slots[..])[i := next];
      PublishHookIndices();
    }

    /** The vehicle constructor hook: the game built a vehicle for one of our published players. On
        another thread than the game's that asks for safe mode. */
    method VehicleConstructed(player: u32, vehicle: u32, sameThread: bool)
      requires Valid()
      modifies slots, this`safeModeRequested
      ensures Valid() && (old(Published()) ==> Published())
      ensures var ours := player != 0 && player in playerIds[..];
              && (ours && sameThread ==> slots[..] == Constructed(old(slots[..]), player, vehicle))
              && (!ours || !sameThread ==> slots[..] == old(slots[..]))
              && safeModeRequested == (old(safeModeRequested) || (ours && !sameThread))
    {
      if player == 0 || player !in playerIds[..] {
        return;
      }
      if !sameThread {
        safeModeRequested := true;
        return;
      }
      var i := FindActor(slots[..], player, 0);
      if i < slots.Length {
        SameLiveIds(slots[..], i, slots[i].(candidate := vehicle));
        Put(i, slots[i].(candidate := vehicle));
      }
    }

    /** create_actor: every answer of the game is arbitrary, and the constructor hook may run while
        the game acquires the id. */
    method CreateActor(i: nat) returns (created: bool)
      requires Valid() && i < SLOTS && slots[i].occupied && slots[i].vehicle == 0
      modifies Repr()
      ensures Valid() && (old(safeModeRequested) ==> safeModeRequested)
      ensures var acted := old(slots[i]).(aiPlayer := slots[i].aiPlayer, gamePlayer := slots[i].gamePlayer);
              SameButCandidates(old(slots[..])[i := acted], slots[..])
      ensures created ==> Published() && Plausible(slots[i].aiPlayer) && Plausible(slots[i].gamePlayer)
      ensures !created ==> slots[i].aiPlayer == 0 || slots[i].aiPlayer == old(slots[i]).aiPlayer
      ensures slots[i].vehicle == 0
    {
      var ai: u32, forced: bool := *, *;
      if !Plausible(ai) {
        return false;
      }
      Put(i, slots[i].(aiPlayer := ai));
      if !forced {
        var cleanedUp: bool := *;
        safeModeRequested := safeModeRequested || !cleanedUp;
        Put(i, slots[i].(aiPlayer := 0));
        return false;
      }
      created := AcquirePlayerId(i);
    }

    method AcquirePlayerId(i: nat) returns (acquired: bool)
      requires Valid() && i < SLOTS && slots[i].occupied && slots[i].vehicle == 0 && Plausible(slots[i].aiPlayer)
      modifies Repr()
      ensures Valid() && safeModeRequested == old(safeModeRequested)
      ensures var acted := old(slots[i]).(aiPlayer := slots[i].aiPlayer, gamePlayer := slots[i].gamePlayer);
              SameButCandidates(old(slots[..])[i := acted], slots[..])
      ensures acquired ==> Published() && slots[i].aiPlayer == old(slots[i]).aiPlayer && Plausible(slots[i].gamePlayer)
      ensures !acquired ==> slots[i].aiPlayer == slots[i].gamePlayer == 0
      ensures slots[i].vehicle == 0
    {
      var answered: bool, listed: bool := *, *;
      CallAcquire(i);
      acquired := answered && listed && Plausible(slots[i].gamePlayer);
      if acquired {
        PublishHookIndices();
      } else {
        Put(i, slots[i].(aiPlayer := 0, gamePlayer := 0));
      }
    }

    /** The game names an actor id, and may build its vehicle meanwhile. */
    method CallAcquire(i: nat)
      requires Valid() && i < SLOTS && slots[i].occupied && slots[i].vehicle == 0 && Plausible(slots[i].aiPlayer)
      modifies slots, this`safeModeRequested
      ensures Valid() && safeModeRequested == old(safeModeRequested)
      ensures SameButCandidates(old(slots[..])[i := old(slots[i]).(gamePlayer := slots[i].gamePlayer)], slots[..])
    {
      var player: u32, vehicle: u32, constructed: bool := *, *, *;
      Put(i, slots[i].(gamePlayer := player));
      if constructed {
        VehicleConstructed(player, vehicle, true);
      }
    }

    /** The vehicle side of one slot's tick; the answer is whether the loop stops. */
    method DriveSlot(i: nat) returns (stop: bool)
      requires Valid() && i < SLOTS && slots[i].occupied && slots[i].aiPlayer != 0
      modifies Repr()
      ensures Valid() && SameSeats(old(slots[..]), slots[..])
      ensures stop ==> safeModeRequested
    {
      BindVehicle(i);
      stop := ApplyLogicalState(i);
      if !stop {
        stop := ApplyVehicleTransform(i);
      }
    }

    method BindVehicle(i: nat)
      requires Valid() && i < SLOTS && slots[i].occupied && slots[i].aiPlayer != 0
      modifies Repr()
      ensures Valid() && SameSeats(old(slots[..]), slots[..])
    {
      RecoverCandidate(i);
      var _ := AttachVehicleIfReady(i);
    }

    method RecoverCandidate(i: nat)
      requires Valid() && i < SLOTS && slots[i].occupied
      modifies slots
      ensures Valid() && SameButCandidates(old(slots[..]), slots[..])
    {
      var recovered: bool, candidate: u32 := *, *;
      if slots[i].vehicle == 0 && recovered && Plausible(candidate) {
        Put(i, slots[i].(candidate := candidate));
      }
    }

    method ApplyLogicalState(i: nat) returns (stop: bool)
      requires Valid() && i < SLOTS && slots[i].occupied
      modifies slots, this`safeModeRequested
      ensures Valid() && SameSeats(old(slots[..]), slots[..])
      ensures stop ==> safeModeRequested && slots[..] == old(slots[..])
    {
      stop := false;
      if !slots[i].hasApplied || Newer(slots[i].state.sequence, slots[i].applied) {
        var placed: bool := *;
        if !placed {
          safeModeRequested := true;
          return true;
        }
        Put(i, slots[i].(hasApplied := true, applied := slots[i].state.sequence));
      }
    }

    /** A vehicle that is no longer the one bound loses its binding; a failed write stops the loop. */
    method ApplyVehicleTransform(i: nat) returns (stop: bool)
      requires Valid() && i < SLOTS
      modifies Repr()
      ensures Valid() && SameSeats(old(slots[..]), slots[..])
      ensures stop ==> safeModeRequested
      ensures slots[i].vehicle == old(slots[i]).vehicle || (slots[i] == Unbound(old(slots[i])) && Published())
    {
      var displayed: bool, confirmed: bool, written: bool := *, *, *;
      if slots[i].vehicle == 0 || !displayed {
        return false;
      }
      if !confirmed {
        EraseBinding(i);
        PublishHookIndices();
        return false;
      }
      if !written {
        safeModeRequested := true;
      }
      stop := !written;
    }

    /** One slot of the game thread's tick. */
    method TickSlot(i: nat, worldReady: bool, member: bool, now: nat) returns (stop: bool)
      requires Valid() && i < SLOTS
      modifies Repr()
      ensures Valid() && SameSeats(old(slots[..]), slots[..])
      ensures !old(slots[i]).occupied || !old(slots[i]).hasState ==> !stop && slots[..] == old(slots[..])
      ensures old(slots[i]).occupied && old(slots[i]).hasState && !worldReady ==>
                !stop && Published() && slots[..] == old(slots[..])[i := Destroyed(old(slots[i]))]
    {
      stop := false;
      if !slots[i].occupied || !slots[i].hasState {
        return;
      }
      if !worldReady {
        var _ := DestroyGameActor(i);
        return;
      }
      DropStranger(i, member);
      var ready := EnsureActor(i, now);
      if ready {
        stop := DriveSlot(i);
      }
    }

    /** An actor the game no longer lists is forgotten without a kill. */
    method DropStranger(i: nat, member: bool)
      requires Valid() && i < SLOTS
      modifies Repr()
      ensures Valid() && SameSeats(old(slots[..]), slots[..]) && slots[i].aiPlayer in {0, old(slots[i]).aiPlayer}
      ensures slots[i].aiPlayer != 0 ==> member
    {
      if slots[i].aiPlayer != 0 && !member {
        EraseBinding(i);
        PutVacant(i, slots[i].(aiPlayer := 0, gamePlayer := 0, hasApplied := false));
        PublishHookIndices();
      }
    }

    method EnsureActor(i: nat, now: nat) returns (ready: bool)
      requires Valid() && i < SLOTS && slots[i].occupied
      modifies Repr()
      ensures Valid() && SameSeats(old(slots[..]), slots[..])
      ensures ready ==> slots[i].aiPlayer != 0
      ensures old(slots[i]).aiPlayer == 0 && now < old(slots[i]).retryAfter ==> !ready && slots[..] == old(slots[..])
    {
      if slots[i].aiPlayer != 0 {
        return true;
      }
      if now < slots[i].retryAfter {
        return false;
      }
      ready := CreateActor(i);
      ActorKeepsSeats(old(slots[..]), slots[..], i, slots[i].aiPlayer, slots[i].gamePlayer);
      if !ready {
        RetryKeepsSeats(old(slots[..]), slots[..], i, now + RETRY_MS);
        Put(i, slots[i].(retryAfter := now + RETRY_MS));
      }
    }

    method EnterSafeMode()
      requires Valid()
      modifies Repr()
      ensures Valid() && Published() && registry.Abs().bindings == [] && slots[..] == seq(SLOTS, _ => FREE)
    {
      var _ := PurgeAllGameActors();
      forall i | 0 <= i < slots.Length {
        slots[i] := FREE;
      }
      PublishHookIndices();
    }

    /** TickGogRemoteActors. The world tests of the loop are answers of the game. */
    method Tick(sameThread: bool, localWorldReady: bool, batch: CommandQueue.Batch, now: nat)
      requires Valid() && Published()
      modifies Repr()
      ensures Valid() && Published()
      ensures !sameThread || old(safeModeRequested)
              ==> registry.Abs().bindings == [] && slots[..] == seq(SLOTS, _ => FREE)
      ensures sameThread && !old(safeModeRequested) ==>
                SameSeats(AfterStates(AfterControls(old(slots[..]), batch.controls), batch.states), slots[..])
      ensures sameThread && !localWorldReady ==> registry.Abs().bindings == []
    {
      safeModeRequested := safeModeRequested || !sameThread;
      if safeModeRequested {
        EnterSafeMode();
        return;
      }
      var _ := ApplyBatch(batch);
      if localWorldReady {
        TickSlots(now);
      } else {
        var _ := PurgeAllGameActors();
      }
    }

    method TickSlots(now: nat)
      requires Valid()
      modifies Repr()
      ensures Valid() && Published() && SameSeats(old(slots[..]), slots[..])
    {
      var i := 0;
      while i < slots.Length
        invariant i <= SLOTS && Valid() && SameSeats(old(slots[..]), slots[..])
      {
        var worldReady: bool, member: bool := *, *;
        var stop := TickSlot(i, worldReady, member, now);
        if stop {
          break;
        }
        i := i + 1;
      }
      PublishHookIndices();
    }
  }

  lemma SomeBinding(slots: seq<RemoteSlot>, bindings: seq<Binding>, offset: u32)
    requires InStep(slots, bindings, offset)
    ensures bindings != [] ==> exists i :: 0 <= i < |slots| && slots[i].vehicle != 0
  {
    if bindings != [] {
      assert bindings[0] in bindings;
    }
  }

  lemma {:induction false} NoLiveIds(slots: seq<RemoteSlot>)
    requires forall i :: 0 <= i < |slots| ==> !slots[i].occupied
    ensures LiveIds(slots) == []
  {
    if slots != [] {
      NoLiveIds(slots[..|slots| - 1]);
    }
  }
}
