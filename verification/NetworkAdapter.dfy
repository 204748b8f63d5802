/** apps/client/network_adapter.cpp: the sidecar's remote peers and the actor commands it writes. */
module NetworkAdapter {
  import opened Options
  import opened Serial

  const MAXIMUM_REMOTES := 7
  const HIDE_AFTER_US := 3_000_000
  const DESPAWN_AFTER_US := 5_000_000
  const NAME_BYTES := 33

  datatype Joined = Joined(player: nat, incarnation: nat, vehicle: nat, paint: nat, name: string)

  datatype State = State(session: nat, player: nat, incarnation: nat, sequence: u32, vehicle: nat, paint: nat,
                         inWorld: bool, body: int)

  /** What the sidecar writes to the bridge pipe. `position` is the unwrapped sequence number of a
      sample; it is not written, only reasoned about. */
  datatype Command =
    | Spawn(player: nat, incarnation: nat, vehicle: nat, paint: nat, name: string)
    | Sample(player: nat, incarnation: nat, state: State, received: nat, position: int)
    | Despawn(player: nat, incarnation: nat)
    | SafeMode(code: nat)

  datatype Peer = Peer(player: nat, incarnation: nat, vehicle: nat, paint: nat, name: string, latest: Option<State>,
                       lastReceive: nat, lastSequence: u32, hasSequence: bool, hasMetadata: bool, spawned: bool,
                         hidden: bool)

  const NO_PEER := Peer(0, 0, 0, 0, "", None, 0, 0, false, false, false, false)

  type Remotes = map<nat, Peer>

  /** The transport's view of this client; it changes outside the adapter. */
  datatype Client = Client(connected: bool, session: nat, player: nat, incarnation: nat)

  datatype Identity = Identity(name: string, vehicle: nat, paint: nat)

  // ----- the command language ---------------------------------------------------------------

  /** Where one player's part of the stream stands: (Spawn Sample* Despawn)*, all three with one
      incarnation, the samples strictly increasing in unwrapped sequence number. */
  datatype Phase = Closed | Open(incarnation: nat, last: Option<int>) | Broken

  predicate Concerns(c: Command, p: nat) { !c.SafeMode? && c.player == p }

  function Advance(phase: Phase, c: Command): Phase {
    match c
    case Spawn(_, i, _, _, _) => if phase.Closed? then Open(i, None) else Broken
    case Sample(_, i, s, _, position) =>
      if phase.Open? && phase.incarnation == i == s.incarnation && position % MODULUS == s.sequence
         && (phase.last.Some? ==> phase.last.value < position)
      then phase.(last := Some(position)) else Broken
    case Despawn(_, i) => if phase.Open? && phase.incarnation == i then Closed else Broken
    case SafeMode(_) => phase
  }

  function Replay(stream: seq<Command>, p: nat): Phase {
    if stream == [] then Closed
    else
      var c, before := stream[|stream| - 1], Replay(stream[..|stream| - 1], p);
      if Concerns(c, p) then Advance(before, c) else before
  }

  lemma ReplayNext(stream: seq<Command>, c: Command, p: nat)
    ensures Replay(stream + [c], p) == if Concerns(c, p) then Advance(Replay(stream, p), c) else Replay(stream, p)
  {
    assert (stream + [c])[..|stream|] == stream;
  }

  /** One player's stream and its peer record agree. `position` is the unwrapped sequence number of
      the last accepted state. */
  predicate Matches(phase: Phase, peer: Peer, position: int) {
    if peer.spawned then
      && phase.Open? && phase.incarnation == peer.incarnation
      && (phase.last.Some? ==> phase.last.value <= position)
    else phase == Closed
  }

  predicate PeerInv(peer: Peer, p: nat, position: int, enabled: bool) {
    && peer.hasMetadata && peer.player == p && peer.incarnation != 0
    && (peer.hasSequence ==> peer.latest.Some? && position % MODULUS == peer.lastSequence)
    && (peer.spawned ==> enabled && peer.hasSequence)
  }

  function PeerOf(remotes: Remotes, p: nat): Peer { if p in remotes then remotes[p] else NO_PEER }

  /** The stream of every player agrees with the roster; a player outside it is closed. */
  ghost predicate InStep(stream: seq<Command>, remotes: Remotes, positions: nat -> int) {
    forall p {:trigger Replay(stream, p)} :: Matches(Replay(stream, p), PeerOf(remotes, p), positions(p))
  }

  ghost predicate PeersInv(remotes: Remotes, positions: nat -> int, enabled: bool) {
    && |remotes| <= MAXIMUM_REMOTES
    && forall p {:trigger remotes[p]} :: p in remotes ==> PeerInv(remotes[p], p, positions(p), enabled)
  }

  function Moved(positions: nat -> int, p: nat, position: int): nat -> int {
    (q: nat) => if q == p then position else positions(q)
  }

  /** A command about one player, together with the change of its record, keeps all in step. */
  lemma CommandKeeps(stream: seq<Command>, remotes: Remotes, positions: nat -> int, enabled: bool, c: Command,
                     peer: Peer)
    requires InStep(stream, remotes, positions) && PeersInv(remotes, positions, enabled)
    requires !c.SafeMode? && c.player in remotes && PeerInv(peer, c.player, positions(c.player), enabled)
    requires Matches(Advance(Replay(stream, c.player), c), peer, positions(c.player))
    ensures InStep(stream + [c], remotes[c.player := peer], positions)
    ensures PeersInv(remotes[c.player := peer], positions, enabled)
  {
    forall p
      ensures Matches(Replay(stream + [c], p), PeerOf(remotes[c.player := peer], p), positions(p))
    {
      ReplayNext(stream, c, p);
    }
    assert remotes[c.player := peer].Keys == remotes.Keys;
  }

  lemma SafeModeKeeps(stream: seq<Command>, remotes: Remotes, positions: nat -> int, code: nat)
    requires InStep(stream, remotes, positions)
    ensures InStep(stream + [SafeMode(code)], remotes, positions)
  {
    forall p
      ensures Matches(Replay(stream + [SafeMode(code)], p), PeerOf(remotes, p), positions(p))
    {
      ReplayNext(stream, SafeMode(code), p);
    }
  }

  lemma RemovalKeeps(stream: seq<Command>, remotes: Remotes, positions: nat -> int, enabled: bool, lost: bool,
                     gone: set<nat>)
    requires PeersInv(remotes, positions, enabled) && (lost || InStep(stream, remotes, positions))
    requires forall p :: p in gone && p in remotes ==> !remotes[p].spawned
    ensures PeersInv(remotes - gone, positions, enabled) && (lost || InStep(stream, remotes - gone, positions))
  {
    if !lost {
      forall p
        ensures Matches(Replay(stream, p), PeerOf(remotes - gone, p), positions(p))
      {
        assert Matches(Replay(stream, p), PeerOf(remotes, p), positions(p));
      }
    }
    var rest := remotes - gone;
    CardinalityMonotone(rest.Keys, remotes.Keys);
  }

  lemma CardinalityMonotone(a: set<nat>, b: set<nat>)
    requires a <= b
    ensures |a| <= |b|
  {
    assert b == a + (b - a);
  }

  lemma {:induction false} BrokenStaysBroken(stream: seq<Command>, n: nat, p: nat)
    requires n <= |stream| && Replay(stream[..n], p).Broken?
    ensures Replay(stream, p).Broken?
    decreases |stream| - n
  {
    if n == |stream| {
      assert stream[..n] == stream;
    } else {
      assert stream[..n + 1][..n] == stream[..n];
      BrokenStaysBroken(stream, n + 1, p);
    }
  }

  /** Whenever adapter and stream are in step, the stream of every player is a prefix of the command
      language, and at most seven players are open at once. */
  lemma StreamsAreInLanguage(stream: seq<Command>, remotes: Remotes, positions: nat -> int, enabled: bool,
                             open: set<nat>)
    requires InStep(stream, remotes, positions) && PeersInv(remotes, positions, enabled)
    requires forall p :: p in open ==> Replay(stream, p).Open?
    ensures forall n, p :: 0 <= n <= |stream| ==> !Replay(stream[..n], p).Broken?
    ensures |open| <= MAXIMUM_REMOTES
  {
    forall n, p | 0 <= n <= |stream|
      ensures !Replay(stream[..n], p).Broken?
    {
      assert Matches(Replay(stream, p), PeerOf(remotes, p), positions(p));
      if Replay(stream[..n], p).Broken? {
        BrokenStaysBroken(stream, n, p);
      }
    }
    forall p | p in open
      ensures p in remotes
    {
      assert Matches(Replay(stream, p), PeerOf(remotes, p), positions(p));
    }
    CardinalityMonotone(open, remotes.Keys);
  }

  /** The players whose actor the stream has spawned and not yet despawned. */
  function Opened(stream: seq<Command>): set<nat> {
    if stream == [] then {}
    else
      var c, before := stream[|stream| - 1], Opened(stream[..|stream| - 1]);
      if c.Spawn? then before + {c.player} else if c.Despawn? then before - {c.player} else before
  }

  lemma {:induction false} OpenedAreOpen(stream: seq<Command>, p: nat)
    requires !Replay(stream, p).Broken?
    ensures p in Opened(stream) <==> Replay(stream, p).Open?
  {
    if stream != [] {
      OpenedAreOpen(stream[..|stream| - 1], p);
    }
  }

  /** There have never been more than seven of them. */
  predicate Narrow(stream: seq<Command>) {
    |Opened(stream)| <= MAXIMUM_REMOTES && (stream != [] ==> Narrow(stream[..|stream| - 1]))
  }

  lemma OpenedAreKnown(stream: seq<Command>, remotes: Remotes, positions: nat -> int)
    requires InStep(stream, remotes, positions)
    ensures Opened(stream) <= remotes.Keys
  {
    forall p | p in Opened(stream)
      ensures p in remotes.Keys
    {
      assert Matches(Replay(stream, p), PeerOf(remotes, p), positions(p));
      OpenedAreOpen(stream, p);
    }
  }

  lemma NarrowNext(stream: seq<Command>, c: Command, remotes: Remotes, positions: nat -> int)
    requires Narrow(stream) && InStep(stream + [c], remotes, positions) && |remotes| <= MAXIMUM_REMOTES
    ensures Narrow(stream + [c])
  {
    OpenedAreKnown(stream + [c], remotes, positions);
    CardinalityMonotone(Opened(stream + [c]), remotes.Keys);
    assert (stream + [c])[..|stream|] == stream;
  }

  /** The commands about one player, in order. */
  function About(stream: seq<Command>, p: nat): seq<Command> {
    if stream == [] then []
    else
      var c := stream[|stream| - 1];
      About(stream[..|stream| - 1], p) + if Concerns(c, p) then [c] else []
  }

  lemma AboutNext(stream: seq<Command>, c: Command, p: nat)
    ensures About(stream + [c], p) == About(stream, p) + if Concerns(c, p) then [c] else []
  {
    assert (stream + [c])[..|stream|] == stream;
  }

  function Ending(remotes: Remotes, p: nat): seq<Command> {
    if p in remotes && remotes[p].spawned then [Despawn(p, remotes[p].incarnation)] else []
  }

  lemma HiddenKeeps(stream: seq<Command>, remotes: Remotes, positions: nat -> int, p: nat, hidden: bool)
    requires InStep(stream, remotes, positions) && p in remotes
    ensures InStep(stream, remotes[p := remotes[p].(hidden := hidden)], positions)
  {
    var after := remotes[p := remotes[p].(hidden := hidden)];
    forall q
      ensures Matches(Replay(stream, q), PeerOf(after, q), positions(q))
    {
      assert Matches(Replay(stream, q), PeerOf(remotes, q), positions(q));
    }
  }

  predicate Has(remotes: Remotes, p: nat, incarnation: nat) { p in remotes && remotes[p].incarnation == incarnation }

  /** The actors of `done` were despawned, and nothing else was said about any player. */
  ghost predicate Ended(before: seq<Command>, remotes: Remotes, done: set<nat>, after: seq<Command>) {
    forall p {:trigger About(after, p)} ::
      About(after, p) == About(before, p) + if p in done then Ending(remotes, p) else []
  }

  lemma EndedNext(before: seq<Command>, remotes: Remotes, done: set<nat>, middle: seq<Command>, p: nat,
                  after: seq<Command>)
    requires Ended(before, remotes, done, middle) && p !in done
    requires after == middle + Ending(remotes, p)
    ensures Ended(before, remotes, done + {p}, after)
  {
    forall q
      ensures About(after, q) == About(before, q) + if q in done + {p} then Ending(remotes, q) else []
    {
      if Ending(remotes, p) == [] {
        assert after == middle;
      } else {
        AboutNext(middle, Ending(remotes, p)[0], q);
      }
      assert About(before, q) + [] == About(before, q);
      assert About(middle, q) == About(before, q) + if q in done then Ending(remotes, q) else [];
    }
  }

  /** A teardown of the roster `start` under way: only the players of `todo` still have their actors. */
  ghost predicate Torn(start: Remotes, before: seq<Command>, todo: set<nat>, remotes: Remotes, stream: seq<Command>) {
    && todo <= start.Keys == remotes.Keys
    && (forall p {:trigger p in todo} :: p in todo ==> remotes[p] == start[p])
    && (forall p {:trigger remotes[p]} :: p in remotes && p !in todo ==> !remotes[p].spawned)
    && Ended(before, start, start.Keys - todo, stream)
  }

  lemma TornNext(start: Remotes, before: seq<Command>, todo: set<nat>, remotes: Remotes, stream: seq<Command>, p: nat,
                 remotes': Remotes, stream': seq<Command>)
    requires Torn(start, before, todo, remotes, stream) && p in todo
    requires remotes' == if remotes[p].spawned then remotes[p := remotes[p].(spawned := false, hidden := false)]
             else remotes
    requires stream' == stream + Ending(remotes, p)
    ensures Torn(start, before, todo - {p}, remotes', stream')
  {
    EndedNext(before, start, start.Keys - todo, stream, p, stream');
    assert start.Keys - (todo - {p}) == start.Keys - todo + {p};
    assert remotes'.Keys == remotes.Keys;
  }

  // ----- the peer state machine -------------------------------------------------------------

  datatype Verdict = Refuse | Ignore | Take

  function JoinVerdict(remotes: Remotes, session: nat, client: Option<Client>, own: Identity, j: Joined,
                       valid: bool): Verdict
  {
    if !valid || j.player == 0 || j.incarnation == 0 then Refuse
    else if client.None? || !client.value.connected || session == 0 || j.player == client.value.player then Refuse
    else if j.name == own.name then Refuse
    else if exists p :: p in remotes && p != j.player && remotes[p].hasMetadata && remotes[p].name == j.name then Refuse
    else if j.player !in remotes then if |remotes| >= MAXIMUM_REMOTES then Refuse else Take
    else
      var peer := remotes[j.player];
      if peer.hasMetadata && peer.incarnation == j.incarnation
          && (peer.vehicle, peer.paint, peer.name) != (j.vehicle, j.paint, j.name)
      then Refuse else Take
  }

  /** The record after a join; a new incarnation forgets the old one's states. */
  function AfterJoin(peer: Peer, j: Joined): Peer {
    var kept := if peer.incarnation == j.incarnation then peer
                else peer.(latest := None, hasSequence := false, spawned := false, hidden := false);
    kept.(player := j.player, incarnation := j.incarnation, vehicle := j.vehicle, paint := j.paint, name := j.name,
          hasMetadata := true)
  }

  /** A join of a new incarnation needs the old one's actor gone. */
  predicate CanJoin(peer: Peer, j: Joined) { peer.spawned ==> peer.incarnation == j.incarnation }

  /** What a join of a new incarnation writes. */
  function Closing(peer: Peer, j: Joined): seq<Command> {
    if peer.spawned && peer.incarnation != j.incarnation then [Despawn(peer.player, peer.incarnation)] else []
  }

  lemma JoinKeeps(stream: seq<Command>, remotes: Remotes, positions: nat -> int, enabled: bool, lost: bool, j: Joined)
    requires PeersInv(remotes, positions, enabled) && (lost || InStep(stream, remotes, positions))
    requires (j.player in remotes || |remotes| < MAXIMUM_REMOTES) && j.incarnation != 0
    requires CanJoin(PeerOf(remotes, j.player), j)
    ensures var after := remotes[j.player := AfterJoin(PeerOf(remotes, j.player), j)];
            PeersInv(after, positions, enabled) && (lost || InStep(stream, after, positions))
  {
    var p, before := j.player, PeerOf(remotes, j.player);
    var after := AfterJoin(before, j);
    assert p in remotes ==> remotes[p := after].Keys == remotes.Keys;
    assert PeerInv(after, p, positions(p), enabled);
    if !lost {
      assert Matches(Replay(stream, p), before, positions(p));
      assert Matches(Replay(stream, p), after, positions(p));
    }
  }

  function StateVerdict(remotes: Remotes, session: nat, client: Option<Client>, own: Identity, s: State,
                        valid: bool): Verdict
  {
    if !valid || client.None? || !client.value.connected || session == 0 || s.session != session then Refuse
    else if s.player == client.value.player then
      if s.incarnation != client.value.incarnation || s.vehicle != own.vehicle || s.paint != own.paint then Refuse
      else Ignore
    else if s.player !in remotes then Ignore
    else
      var peer := remotes[s.player];
      if !peer.hasMetadata || peer.incarnation != s.incarnation then Ignore
      else if peer.vehicle != s.vehicle || peer.paint != s.paint then Refuse
      else if peer.hasSequence && !Newer(s.sequence, peer.lastSequence) then Ignore
      else Take
  }

  function SpawnOf(peer: Peer): Command {
    Spawn(peer.player, peer.incarnation, peer.vehicle, peer.paint,
          if |peer.name| < NAME_BYTES then peer.name else peer.name[..NAME_BYTES - 1])
  }

  /** The record with the state noted, before any command. */
  function Noted(peer: Peer, s: State, stamp: nat): Peer {
    peer.(lastSequence := s.sequence, hasSequence := true, lastReceive := stamp, latest := Some(s))
  }

  /** The record after the state is forwarded. */
  function Shown(peer: Peer, s: State, enabled: bool): Peer {
    if s.inWorld then peer.(spawned := peer.spawned || enabled, hidden := false)
    else if peer.spawned && !peer.hidden then peer.(hidden := true)
    else peer
  }

  function NextPosition(peer: Peer, position: int, s: State): int {
    if peer.hasSequence then Unwrap(position, s.sequence) else s.sequence
  }

  /** A sample at `position` continues the stream. */
  predicate CanSample(phase: Phase, incarnation: nat, position: int) {
    phase.Open? && phase.incarnation == incarnation && (phase.last.Some? ==> phase.last.value < position)
  }

  lemma NoteKeeps(stream: seq<Command>, remotes: Remotes, positions: nat -> int, enabled: bool, lost: bool, s: State,
                  stamp: nat)
    requires PeersInv(remotes, positions, enabled) && (lost || InStep(stream, remotes, positions))
    requires s.player in remotes
    requires var peer := remotes[s.player]; peer.hasSequence ==> Newer(s.sequence, peer.lastSequence)
    ensures var p := s.player;
            var position := NextPosition(remotes[p], positions(p), s);
            var after := remotes[p := Noted(remotes[p], s, stamp)];
            && PeersInv(after, Moved(positions, p, position), enabled)
            && (lost || InStep(stream, after, Moved(positions, p, position)))
            && (!lost && remotes[p].spawned ==> CanSample(Replay(stream, p), remotes[p].incarnation, position))
  {
    var p, peer := s.player, remotes[s.player];
    var position, noted := NextPosition(peer, positions(p), s), Noted(peer, s, stamp);
    if peer.hasSequence {
      UnwrapAdvances(positions(p), s.sequence);
    }
    assert remotes[p := noted].Keys == remotes.Keys;
    assert PeerInv(noted, p, position, enabled);
    if !lost {
      assert Matches(Replay(stream, p), PeerOf(remotes, p), positions(p));
      assert Matches(Replay(stream, p), noted, position);
    }
  }

  /** The commands a taken state produces. */
  function CommandsFor(peer: Peer, s: State, stamp: nat, enabled: bool, position: int): seq<Command> {
    var sample := Sample(s.player, s.incarnation, s, stamp, position);
    if !enabled then []
    else if s.inWorld then (if peer.spawned then [] else [SpawnOf(peer)]) + [sample]
    else if peer.spawned && !peer.hidden then [sample]
    else []
  }

  /** All of `commands` went out, or a proper prefix of them if the pipe failed. */
  predicate Wrote(before: seq<Command>, commands: seq<Command>, after: seq<Command>, ok: bool) {
    if ok then after == before + commands
    else |after| < |before| + |commands| && before <= after <= before + commands
  }

  function Age(peer: Peer, now: nat): nat { if now > peer.lastReceive then now - peer.lastReceive else 0 }

  function Forgotten(peer: Peer): Peer {
    peer.(latest := None, hasSequence := false, spawned := false, hidden := false)
  }

  predicate Silent(peer: Peer, now: nat) { peer.hasMetadata && peer.latest.Some? && Age(peer, now) >= DESPAWN_AFTER_US }

  function SilentPlayers(remotes: Remotes, now: nat): set<nat> { set p | p in remotes && Silent(remotes[p], now) }

  function Aged(peer: Peer, now: nat): Peer {
    if !peer.hasMetadata || peer.latest.None? then peer
    else if Age(peer, now) >= DESPAWN_AFTER_US then Forgotten(peer)
    else if Age(peer, now) >= HIDE_AFTER_US && peer.spawned && !peer.hidden then peer.(hidden := true)
    else peer
  }

  /** Ageing swallows an exit: an actor hidden after three silent seconds takes the state that leaves the
      world and writes nothing, where it would have written a sample a moment earlier. */
  lemma {:induction false} AgedPeerLeavesUnseen(own: Identity, j: Joined, seen: State, gone: State, stamp: nat,
                                                now: nat)
    requires own.name != j.name && j.player != 1 && j.player != 0 && j.incarnation != 0
    requires seen.player == gone.player == j.player && seen.incarnation == gone.incarnation == j.incarnation
    requires seen.vehicle == gone.vehicle == j.vehicle && seen.paint == gone.paint == j.paint
    requires seen.session == gone.session == 1 && seen.inWorld && !gone.inWorld && Newer(gone.sequence, seen.sequence)
    requires HIDE_AFTER_US <= now - stamp < DESPAWN_AFTER_US
    ensures var client := Some(Client(true, 1, 1, 1));
            var joined := AfterJoin(NO_PEER, j);
            var shown := Shown(Noted(joined, seen, stamp), seen, true);
            var aged := Aged(shown, now);
            && JoinVerdict(map[], 1, client, own, j, true) == Take
            && StateVerdict(map[j.player := joined], 1, client, own, seen, true) == Take
            && StateVerdict(map[j.player := shown], 1, client, own, gone, true) == Take
            && StateVerdict(map[j.player := aged], 1, client, own, gone, true) == Take
            && (forall position :: CommandsFor(shown, gone, now, true, position)
                                   == [Sample(gone.player, gone.incarnation, gone, now, position)])
            && forall position :: CommandsFor(aged, gone, now, true, position) == []
  {
    var joined := AfterJoin(NO_PEER, j);
    var shown := Shown(Noted(joined, seen, stamp), seen, true);
    assert shown.spawned && !shown.hidden && Age(shown, now) == now - stamp;
    assert Aged(shown, now) == shown.(hidden := true);
  }

  /** update_liveness under way: the players of `todo` are still to be looked at. */
  ghost predicate Aging(start: Remotes, before: seq<Command>, todo: set<nat>, now: nat, remotes: Remotes,
                        stream: seq<Command>)
  {
    && todo <= start.Keys == remotes.Keys
    && (forall p {:trigger remotes[p]} ::
          p in remotes ==> remotes[p] == if p in todo then start[p] else Aged(start[p], now))
    && Ended(before, start, SilentPlayers(start, now) - todo, stream)
  }

  lemma AgingNext(start: Remotes, before: seq<Command>, todo: set<nat>, now: nat, remotes: Remotes,
                  stream: seq<Command>, p: nat, remotes': Remotes, stream': seq<Command>)
    requires Aging(start, before, todo, now, remotes, stream) && p in todo
    requires remotes' == remotes[p := Aged(remotes[p], now)]
    requires stream' == stream + if Silent(remotes[p], now) then Ending(remotes, p) else []
    ensures Aging(start, before, todo - {p}, now, remotes', stream')
  {
    assert remotes'.Keys == remotes.Keys;
    var done := SilentPlayers(start, now) - todo;
    if Silent(remotes[p], now) {
      EndedNext(before, start, done, stream, p, stream');
      assert SilentPlayers(start, now) - (todo - {p}) == done + {p};
    } else {
      assert stream' == stream;
      assert SilentPlayers(start, now) - (todo - {p}) == done;
    }
  }

  class Adapter {
    const own: Identity
    const enabled: bool
    var remotes: Remotes
    var sessionId: nat
    var terminal: bool
    /** Everything the pipe accepted. */
    ghost var stream: seq<Command>
    /** Unwrapped sequence number of the last accepted state of each player. */
    ghost var positions: nat -> int
    /** A despawn was lost because the pipe failed while the adapter was being stopped. */
    ghost var lost: bool

    ghost predicate Valid()
      reads this
    {
      && PeersInv(remotes, positions, enabled)
      && (lost || (InStep(stream, remotes, positions) && Narrow(stream)))
      && (!enabled ==> forall c :: c in stream ==> c.SafeMode?)
    }

    constructor (own: Identity, enabled: bool)
      ensures Valid() && !lost && remotes == map[] && stream == []
    {
      this.own, this.enabled := own, enabled;
      remotes, sessionId, terminal, stream := map[], 0, false, [];
      positions, lost := _ => 0, false;
    }

    /** The pipe may fail at any write. */
    method Write(ghost c: Command) returns (ok: bool)
      modifies this`stream
      ensures stream == if ok then old(stream) + [c] else old(stream)
    {
      ok := *;
      if ok {
        stream := stream + [c];
      }
    }

    method EmitDespawn(p: nat) returns (ok: bool)
      requires Valid() && p in remotes && remotes[p].spawned
      modifies this`stream, this`remotes
      ensures Valid()
      ensures ok ==> stream == old(stream) + [Despawn(p, old(remotes)[p].incarnation)]
      ensures ok ==> remotes == old(remotes)[p := old(remotes)[p].(spawned := false, hidden := false)]
      ensures !ok ==> stream == old(stream) && remotes == old(remotes)
    {
      var peer := remotes[p];
      ghost var c := Despawn(peer.player, peer.incarnation);
      var next := peer.(spawned := false, hidden := false);
      if !lost {
        assert Matches(Replay(stream, p), peer, positions(p));
        CommandKeeps(stream, remotes, positions, enabled, c, next);
        NarrowNext(stream, c, remotes[p := next], positions);
      }
      ok := Write(c);
      if ok {
        remotes := remotes[p := next];
        assert remotes.Keys == old(remotes).Keys;
      }
    }

    method EmitSpawn(p: nat) returns (ok: bool)
      requires Valid() && p in remotes && !remotes[p].spawned && remotes[p].hasSequence
      modifies this`stream, this`remotes
      ensures Valid()
      ensures ok && enabled ==> stream == old(stream) + [SpawnOf(old(remotes)[p])]
      ensures ok && enabled ==> remotes == old(remotes)[p := old(remotes)[p].(spawned := true, hidden := false)]
      ensures !ok || !enabled ==> stream == old(stream) && remotes == old(remotes)
      ensures !ok ==> enabled
      ensures ok && enabled && !lost ==> Replay(stream, p) == Open(remotes[p].incarnation, None)
    {
      if !enabled {
        return true;
      }
      var peer := remotes[p];
      ghost var c := SpawnOf(peer);
      var next := peer.(spawned := true, hidden := false);
      if !lost {
        assert Matches(Replay(stream, p), peer, positions(p));
        CommandKeeps(stream, remotes, positions, enabled, c, next);
        NarrowNext(stream, c, remotes[p := next], positions);
        ReplayNext(stream, c, p);
      }
      ok := Write(c);
      if ok {
        remotes := remotes[p := next];
        assert remotes.Keys == old(remotes).Keys;
      }
    }

    method EmitSample(p: nat, s: State, stamp: nat) returns (ok: bool)
      requires Valid() && p in remotes && s.player == p && s.incarnation == remotes[p].incarnation
      requires enabled ==> remotes[p].spawned && positions(p) % MODULUS == s.sequence
      requires enabled && !lost ==> CanSample(Replay(stream, p), s.incarnation, positions(p))
      modifies this`stream
      ensures Valid()
      ensures !ok ==> enabled
      ensures stream == old(stream) + if ok && enabled then [Sample(p, s.incarnation, s, stamp, positions(p))] else []
    {
      if !enabled {
        assert stream + [] == stream;
        return true;
      }
      ghost var c := Sample(p, s.incarnation, s, stamp, positions(p));
      if !lost {
        assert Matches(Replay(stream, p), remotes[p], positions(p));
        CommandKeeps(stream, remotes, positions, enabled, c, remotes[p]);
        assert remotes[p := remotes[p]] == remotes;
        NarrowNext(stream, c, remotes, positions);
      }
      ok := Write(c);
      assert stream + [] == stream;
    }

    /** Stores a join whose old incarnation, if there was another one, is already despawned. */
    method StoreJoin(j: Joined)
      requires Valid() && (j.player in remotes || |remotes| < MAXIMUM_REMOTES) && j.incarnation != 0
      requires CanJoin(PeerOf(remotes, j.player), j)
      modifies this`remotes
      ensures Valid() && remotes == old(remotes)[j.player := AfterJoin(PeerOf(old(remotes), j.player), j)]
    {
      JoinKeeps(stream, remotes, positions, enabled, lost, j);
      remotes := remotes[j.player := AfterJoin(PeerOf(remotes, j.player), j)];
    }

    /** PeerJoined, and SpawnMetadata, which carries the same fields. A join for another incarnation
        first despawns the actor of the old one. */
    method HandleJoined(j: Joined, valid: bool, client: Option<Client>) returns (ok: bool)
      requires Valid()
      modifies this`stream, this`remotes
      ensures Valid()
      ensures !ok ==> stream == old(stream) && remotes == old(remotes)
      ensures ok ==> JoinVerdict(old(remotes), sessionId, client, own, j, valid) == Take
      ensures ok ==> remotes == old(remotes)[j.player := AfterJoin(PeerOf(old(remotes), j.player), j)]
      ensures ok ==> stream == old(stream) + Closing(PeerOf(old(remotes), j.player), j)
      ensures JoinVerdict(old(remotes), sessionId, client, own, j, valid) == Take
              && Closing(PeerOf(old(remotes), j.player), j) == []
              ==> ok
    {
      if JoinVerdict(remotes, sessionId, client, own, j, valid) == Refuse {
        return false;
      }
      var peer := PeerOf(remotes, j.player);
      if peer.incarnation != 0 && peer.incarnation != j.incarnation && peer.spawned {
        ok := EmitDespawn(j.player);
        if !ok {
          return;
        }
      }
      StoreJoin(j);
      assert stream + [] == stream;
      ok := true;
    }

    method HandleLeft(player: nat, incarnation: nat, client: Option<Client>) returns (ok: bool)
      requires Valid()
      modifies this`stream, this`remotes
      ensures Valid()
      ensures !ok ==> stream == old(stream) && remotes == old(remotes)
      ensures ok ==> client.Some? && client.value.connected && client.value.player != player
      ensures ok && Has(old(remotes), player, incarnation) ==>
                remotes == old(remotes) - {player} && stream == old(stream) + Ending(old(remotes), player)
      ensures ok && !Has(old(remotes), player, incarnation) ==> remotes == old(remotes) && stream == old(stream)
      ensures client.Some? && client.value.connected && client.value.player != player
              && Ending(old(remotes), player) == []
              ==> ok
    {
      if client.None? || !client.value.connected || player == client.value.player {
        return false;
      }
      if Has(remotes, player, incarnation) {
        if remotes[player].spawned {
          ok := EmitDespawn(player);
          if !ok {
            return;
          }
        }
        assert stream + [] == stream;
        RemovePlayers({player});
      }
      ok := true;
    }

    method RemovePlayers(gone: set<nat>)
      requires Valid() && forall p :: p in gone && p in remotes ==> !remotes[p].spawned
      modifies this`remotes
      ensures Valid() && remotes == old(remotes) - gone
    {
      RemovalKeeps(stream, remotes, positions, enabled, lost, gone);
      remotes := remotes - gone;
    }

    /** The bookkeeping of a taken state. */
    method NoteState(s: State, stamp: nat)
      requires Valid() && s.player in remotes
      requires remotes[s.player].hasSequence ==> Newer(s.sequence, remotes[s.player].lastSequence)
      modifies this`remotes, this`positions
      ensures Valid() && remotes == old(remotes)[s.player := Noted(old(remotes)[s.player], s, stamp)]
      ensures positions == Moved(old(positions), s.player,
                                 NextPosition(old(remotes)[s.player], old(positions)(s.player), s))
      ensures positions(s.player) % MODULUS == s.sequence
      ensures !lost && remotes[s.player].spawned ==>
                CanSample(Replay(stream, s.player), remotes[s.player].incarnation, positions(s.player))
    {
      var p, peer := s.player, remotes[s.player];
      NoteKeeps(stream, remotes, positions, enabled, lost, s, stamp);
      positions := Moved(positions, p, NextPosition(peer, positions(p), s));
      remotes := remotes[p := Noted(peer, s, stamp)];
      assert PeerInv(remotes[p], p, positions(p), enabled);
    }

    method SetHidden(p: nat, hidden: bool)
      requires Valid() && p in remotes
      modifies this`remotes
      ensures Valid() && remotes == old(remotes)[p := old(remotes)[p].(hidden := hidden)]
    {
      var next := remotes[p].(hidden := hidden);
      assert remotes[p := next].Keys == remotes.Keys;
      if !lost {
        HiddenKeeps(stream, remotes, positions, p, hidden);
      }
      remotes := remotes[p := next];
    }

    /** Forwards a noted state of the world, spawning the actor first if needed. */
    method ForwardPresent(s: State, stamp: nat) returns (ok: bool)
      requires Valid() && Has(remotes, s.player, s.incarnation) && remotes[s.player].hasSequence && s.inWorld
      requires positions(s.player) % MODULUS == s.sequence
      requires !lost && remotes[s.player].spawned
               ==> CanSample(Replay(stream, s.player), s.incarnation, positions(s.player))
      modifies this`stream, this`remotes
      ensures Valid() && s.player in old(remotes)
      ensures Wrote(old(stream), CommandsFor(old(remotes)[s.player], s, stamp, enabled, positions(s.player)), stream,
                    ok)
      ensures ok ==> remotes == old(remotes)[s.player := Shown(old(remotes)[s.player], s, enabled)]
    {
      if !remotes[s.player].spawned {
        ok := EmitSpawn(s.player);
        if !ok {
          return;
        }
      }
      ok := EmitSample(s.player, s, stamp);
      if ok {
        SetHidden(s.player, false);
      }
    }

    /** Forwards a noted state; the first one out of the world is forwarded to remove the actor. */
    method Forward(s: State, stamp: nat) returns (ok: bool)
      requires Valid() && Has(remotes, s.player, s.incarnation) && remotes[s.player].hasSequence
      requires positions(s.player) % MODULUS == s.sequence
      requires !lost && remotes[s.player].spawned
               ==> CanSample(Replay(stream, s.player), s.incarnation, positions(s.player))
      modifies this`stream, this`remotes
      ensures Valid() && s.player in old(remotes)
      ensures Wrote(old(stream), CommandsFor(old(remotes)[s.player], s, stamp, enabled, positions(s.player)), stream,
                    ok)
      ensures ok ==> remotes == old(remotes)[s.player := Shown(old(remotes)[s.player], s, enabled)]
    {
      if s.inWorld {
        ok := ForwardPresent(s, stamp);
      } else if remotes[s.player].spawned && !remotes[s.player].hidden {
        ok := EmitSample(s.player, s, stamp);
        if ok {
          SetHidden(s.player, true);
        }
      } else {
        assert stream + [] == stream;
        assert remotes == remotes[s.player := remotes[s.player]];
        ok := true;
      }
    }

    /** One PlayerState, alone or out of a snapshot. */
    method AcceptState(s: State, valid: bool, client: Option<Client>, stamp: nat) returns (ok: bool)
      requires Valid()
      modifies this`stream, this`remotes, this`positions
      ensures Valid()
      ensures var verdict := StateVerdict(old(remotes), sessionId, client, own, s, valid);
              && (verdict == Refuse ==> !ok)
              && (verdict == Ignore ==> ok)
              && (verdict != Take ==> stream == old(stream) && remotes == old(remotes) && positions == old(positions))
      ensures StateVerdict(old(remotes), sessionId, client, own, s, valid) == Take ==>
                var peer := PeerOf(old(remotes), s.player);
                var position := NextPosition(peer, old(positions)(s.player), s);
                && positions == Moved(old(positions), s.player, position)
                && Wrote(old(stream), CommandsFor(peer, s, stamp, enabled, position), stream, ok)
                && (ok ==> remotes == old(remotes)[s.player := Shown(Noted(peer, s, stamp), s, enabled)])
    {
      var verdict := StateVerdict(remotes, sessionId, client, own, s, valid);
      if verdict != Take {
        return verdict == Ignore;
      }
      NoteState(s, stamp);
      ok := Forward(s, stamp);
    }

    method EnterSafeMode(code: nat) returns (ok: bool)
      requires Valid()
      modifies this`stream, this`terminal
      ensures Valid() && terminal && stream == old(stream) + if ok then [SafeMode(code)] else []
    {
      terminal := true;
      if !lost {
        SafeModeKeeps(stream, remotes, positions, code);
        NarrowNext(stream, SafeMode(code), remotes, positions);
      }
      ok := Write(SafeMode(code));
      assert stream + [] == stream;
    }

    /** A welcome from the coordinator starts a new membership: every old actor is despawned first. */
    method HandleConnected(session: nat) returns (ok: bool)
      requires Valid()
      modifies this`stream, this`remotes, this`sessionId
      ensures Valid()
      ensures ok ==> remotes == map[] && sessionId == session
      ensures ok && !lost ==>
                Ended(old(stream), old(remotes), old(remotes).Keys, stream) && forall p :: Replay(stream, p) == Closed
      ensures !ok ==> remotes.Keys == old(remotes).Keys && sessionId == old(sessionId)
    {
      ok := DespawnAll();
      if ok {
        ClearRoster(old(remotes), old(stream));
        sessionId := session;
      }
    }

    method DespawnAll() returns (ok: bool)
      requires Valid()
      modifies this`stream, this`remotes
      ensures Valid() && remotes.Keys == old(remotes).Keys
      ensures ok ==> Torn(old(remotes), old(stream), {}, remotes, stream)
    {
      var todo := remotes.Keys;
      while todo != {}
        invariant Valid() && Torn(old(remotes), old(stream), todo, remotes, stream)
        decreases |todo|
      {
        var p :| p in todo;
        ok := DespawnNext(p, todo, old(remotes), old(stream));
        if !ok {
          return;
        }
        todo := todo - {p};
      }
      ok := true;
    }

    method ClearRoster(ghost start: Remotes, ghost before: seq<Command>)
      requires Valid() && (lost || Torn(start, before, {}, remotes, stream))
      modifies this`remotes
      ensures Valid() && remotes == map[]
      ensures !lost ==> Ended(before, start, start.Keys, stream) && forall p :: Replay(stream, p) == Closed
    {
      if !lost {
        assert start.Keys - {} == start.Keys;
        RemovalKeeps(stream, remotes, positions, enabled, lost, remotes.Keys);
        assert remotes - remotes.Keys == map[];
      }
      remotes := map[];
    }

    method DespawnNext(p: nat, ghost todo: set<nat>, ghost start: Remotes, ghost before: seq<Command>)
      returns (ok: bool)
      requires Valid() && Torn(start, before, todo, remotes, stream) && p in todo
      modifies this`stream, this`remotes
      ensures Valid()
      ensures Torn(start, before, if ok then todo - {p} else todo, remotes, stream)
      ensures !ok ==> stream == old(stream) && remotes == old(remotes)
    {
      ok := true;
      if remotes[p].spawned {
        ok := EmitDespawn(p);
      } else {
        assert stream + [] == stream;
      }
      if ok {
        TornNext(start, before, todo, old(remotes), old(stream), p, remotes, stream);
      }
    }

    /** One peer of update_liveness. */
    method AgePeer(p: nat, now: nat) returns (ok: bool)
      requires Valid() && p in remotes
      modifies this`stream, this`remotes
      ensures Valid()
      ensures ok ==> remotes == old(remotes)[p := Aged(old(remotes)[p], now)]
      ensures ok ==> stream == old(stream) + if Silent(old(remotes)[p], now) then Ending(old(remotes), p) else []
      ensures !ok ==> stream == old(stream) && remotes == old(remotes)
    {
      assert stream + [] == stream && remotes[p := remotes[p]] == remotes;
      ok := true;
      if !remotes[p].hasMetadata || remotes[p].latest.None? {
        return;
      }
      if Age(remotes[p], now) >= DESPAWN_AFTER_US {
        if remotes[p].spawned {
          ok := EmitDespawn(p);
          if !ok {
            return;
          }
        }
        ForgetStates(p);
      } else if Age(remotes[p], now) >= HIDE_AFTER_US && remotes[p].spawned && !remotes[p].hidden {
        SetHidden(p, true);
      }
    }

    method ForgetStates(p: nat)
      requires Valid() && p in remotes && !remotes[p].spawned
      modifies this`remotes
      ensures Valid() && remotes == old(remotes)[p := Forgotten(old(remotes)[p])]
    {
      assert remotes[p := Forgotten(remotes[p])].Keys == remotes.Keys;
      assert !lost ==> Matches(Replay(stream, p), remotes[p], positions(p));
      remotes := remotes[p := Forgotten(remotes[p])];
    }

    /** Silent actors go; every actor that stays was heard of less than five seconds ago. */
    method UpdateLiveness(now: nat) returns (ok: bool)
      requires Valid()
      modifies this`stream, this`remotes
      ensures Valid() && remotes.Keys == old(remotes).Keys
      ensures ok ==> forall p :: p in remotes ==> remotes[p] == Aged(old(remotes)[p], now)
      ensures ok ==> forall p :: p in remotes && remotes[p].spawned ==> Age(remotes[p], now) < DESPAWN_AFTER_US
      ensures ok ==> Ended(old(stream), old(remotes), SilentPlayers(old(remotes), now), stream)
    {
      var todo := remotes.Keys;
      while todo != {}
        invariant Valid() && Aging(old(remotes), old(stream), todo, now, remotes, stream)
        decreases |todo|
      {
        var p :| p in todo;
        ghost var remotes', stream' := remotes, stream;
        ok := AgePeer(p, now);
        if !ok {
          return;
        }
        AgingNext(old(remotes), old(stream), todo, now, remotes', stream', p, remotes, stream);
        todo := todo - {p};
      }
      assert SilentPlayers(old(remotes), now) - {} == SilentPlayers(old(remotes), now);
      ok := true;
    }

    /** The sidecar stops: a despawn the pipe refuses is given up. */
    method Stop()
      requires Valid()
      modifies this`stream, this`remotes, this`lost
      ensures Valid() && remotes == map[]
      ensures !lost ==>
                Ended(old(stream), old(remotes), old(remotes).Keys, stream) && forall p :: Replay(stream, p) == Closed
      ensures old(lost) ==> lost
    {
      var todo := remotes.Keys;
      while todo != {}
        invariant Valid() && todo <= remotes.Keys && (old(lost) ==> lost)
        invariant lost || Torn(old(remotes), old(stream), todo, remotes, stream)
        decreases |todo|
      {
        var p :| p in todo;
        GiveUp(p, todo, old(remotes), old(stream));
        todo := todo - {p};
      }
      ClearRoster(old(remotes), old(stream));
    }

    method GiveUp(p: nat, ghost todo: set<nat>, ghost start: Remotes, ghost before: seq<Command>)
      requires Valid() && p in todo && (lost || Torn(start, before, todo, remotes, stream)) && p in remotes
      modifies this`stream, this`remotes, this`lost
      ensures Valid() && remotes.Keys == old(remotes).Keys && (old(lost) ==> lost)
      ensures lost || Torn(start, before, todo - {p}, remotes, stream)
    {
      var ok := true;
      assert stream + [] == stream;
      if remotes[p].spawned {
        ok := EmitDespawn(p);
      }
      lost := lost || !ok;
      if !lost {
        TornNext(start, before, todo, old(remotes), old(stream), p, remotes, stream);
      }
    }
  }
}
