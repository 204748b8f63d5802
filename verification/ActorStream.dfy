/** The sidecar's command stream as the bridge takes it: apps/client/network_adapter.cpp feeding
    bridge/remote_actor_backend.cpp. The pipe and the command queue keep the order of the controls
    (CommandQueueRuns.ControlsRefineHistory). */
module ActorStream {
  import N = NetworkAdapter
  import CommandQueue
  import B = ActorBackend

  /** The spawns and despawns of the stream. */
  function ControlsOf(stream: seq<N.Command>): seq<CommandQueue.Control> {
    if stream == [] then []
    else
      var c, before := stream[|stream| - 1], ControlsOf(stream[..|stream| - 1]);
      match c
      case Spawn(p, i, vehicle, paint, name) =>
        before + [CommandQueue.Spawn(CommandQueue.SpawnCommand(CommandQueue.Key(p, i), vehicle, paint, name))]
      case Despawn(p, i) => before + [CommandQueue.Despawn(CommandQueue.Key(p, i))]
      case _ => before
  }

  function RosterOf(stream: seq<N.Command>): map<nat, nat> { B.RosterRun(map[], ControlsOf(stream)) }

  /** No player's part of the stream leaves the command language. */
  ghost predicate InLanguage(stream: seq<N.Command>) { forall p :: !N.Replay(stream, p).Broken? }

  lemma PriorInLanguage(stream: seq<N.Command>)
    requires stream != [] && InLanguage(stream)
    ensures InLanguage(stream[..|stream| - 1])
  {
    var prior := stream[..|stream| - 1];
    forall p
      ensures !N.Replay(prior, p).Broken?
    {
      assert !N.Replay(stream, p).Broken?;
    }
  }

  /** The roster the bridge reads off the stream has exactly the open players, each with the incarnation
      it was spawned with. */
  ghost predicate Reads(stream: seq<N.Command>) {
    forall p {:trigger N.Replay(stream, p)} ::
      if p in RosterOf(stream) then N.Replay(stream, p).Open? && N.Replay(stream, p).incarnation == RosterOf(stream)[p]
      else !N.Replay(stream, p).Open?
  }

  lemma {:induction false} RosterReads(stream: seq<N.Command>)
    requires InLanguage(stream)
    ensures Reads(stream)
  {
    if stream != [] {
      var prior, c := stream[..|stream| - 1], stream[|stream| - 1];
      PriorInLanguage(stream);
      RosterReads(prior);
      RosterNext(prior, c, stream);
    }
  }

  lemma RosterNext(prior: seq<N.Command>, c: N.Command, stream: seq<N.Command>)
    requires stream == prior + [c] && InLanguage(stream) && Reads(prior)
    ensures Reads(stream)
  {
    assert stream[..|prior|] == prior;
    if c.Spawn? || c.Despawn? {
      assert ControlsOf(stream)[..|ControlsOf(prior)|] == ControlsOf(prior);
    }
    forall p
      ensures if p in RosterOf(stream) then N.Replay(stream, p).Open?
              && N.Replay(stream, p).incarnation == RosterOf(stream)[p]
              else !N.Replay(stream, p).Open?
    {
      N.ReplayNext(prior, c, p);
      assert !N.Replay(stream, p).Broken?;
    }
  }

  /** What the sidecar writes never describes more than seven players. */
  lemma {:induction false} StreamFits(stream: seq<N.Command>)
    requires InLanguage(stream) && N.Narrow(stream)
    ensures B.Fits(map[], ControlsOf(stream))
  {
    RosterReads(stream);
    forall p
      ensures p in RosterOf(stream) <==> p in N.Opened(stream)
    {
      assert !N.Replay(stream, p).Broken?;
      N.OpenedAreOpen(stream, p);
    }
    assert RosterOf(stream).Keys == N.Opened(stream);
    if stream != [] {
      var prior := stream[..|stream| - 1];
      PriorInLanguage(stream);
      StreamFits(prior);
      if ControlsOf(stream) != ControlsOf(prior) {
        assert ControlsOf(stream)[..|ControlsOf(stream)| - 1] == ControlsOf(prior);
      }
    }
  }

  lemma EmptyTable()
    ensures B.SlotsInv(seq(B.SLOTS, _ => B.FREE)) && B.Agrees(seq(B.SLOTS, _ => B.FREE), map[])
  {
  }

  /** Whenever sidecar and stream are in step, the bridge that has applied the stream's controls seats
      exactly the peers the sidecar holds spawned, each with its incarnation, and no spawn among them
      ever found every slot taken. */
  lemma BridgeSeatsSpawnedPeers(stream: seq<N.Command>, remotes: N.Remotes, positions: nat -> int,
                                key: CommandQueue.Key)
    requires N.InStep(stream, remotes, positions) && N.Narrow(stream)
    ensures var slots := B.AfterControls(seq(B.SLOTS, _ => B.FREE), ControlsOf(stream));
            B.SlotsInv(slots) &&
            (B.Plays(slots, key) <==> N.Has(remotes, key.player, key.incarnation) && remotes[key.player].spawned)
    ensures B.NeverOverflows(seq(B.SLOTS, _ => B.FREE), ControlsOf(stream))
  {
    forall p
      ensures !N.Replay(stream, p).Broken?
    {
      assert N.Matches(N.Replay(stream, p), N.PeerOf(remotes, p), positions(p));
    }
    StreamFits(stream);
    EmptyTable();
    B.ControlsRefineRoster(seq(B.SLOTS, _ => B.FREE), map[], ControlsOf(stream));
    RosterReads(stream);
    assert N.Matches(N.Replay(stream, key.player), N.PeerOf(remotes, key.player), positions(key.player));
  }

  /** A despawn names the incarnation that the bridge seats for its player. */
  lemma DespawnNamesSeated(stream: seq<N.Command>, c: N.Command, key: CommandQueue.Key)
    requires c.Despawn? && InLanguage(stream + [c]) && N.Narrow(stream) && key.player == c.player
    ensures var slots := B.AfterControls(seq(B.SLOTS, _ => B.FREE), ControlsOf(stream));
            B.Plays(slots, key) <==> key.incarnation == c.incarnation
  {
    assert (stream + [c])[..|stream|] == stream;
    PriorInLanguage(stream + [c]);
    StreamFits(stream);
    EmptyTable();
    B.ControlsRefineRoster(seq(B.SLOTS, _ => B.FREE), map[], ControlsOf(stream));
    RosterReads(stream);
    N.ReplayNext(stream, c, c.player);
    assert !N.Replay(stream + [c], c.player).Broken?;
    assert !N.Replay(stream, c.player).Broken?;
  }
}
