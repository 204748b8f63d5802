/** The coordinator's messages as a sidecar takes them: apps/coordinator/session.cpp feeding
    apps/client/network_adapter.cpp. */
module SidecarMembership {
  import opened Options
  import opened CoordinatorSession
  import N = NetworkAdapter

  /** Members a session can have before some sidecar fails: its own player and seven remotes. */
  const MAXIMUM_MEMBERS := 8

  // ----- one sidecar ------------------------------------------------------------------------

  /** What a sidecar needs to judge a message: its roster, and whom the welcome made it. */
  datatype View = Outside | In(remotes: N.Remotes, session: nat, player: nat) | Failed

  function JoinedOf(i: Info): N.Joined { N.Joined(i.player, i.incarnation, i.vehicle, i.paint, i.name) }

  function StateOf(s: PlayerState): N.State {
    N.State(s.session, s.player, s.incarnation, s.sequence, s.vehicle, s.paint, true, s.body)
  }

  function OwnOf(own: Info): N.Identity { N.Identity(own.name, own.vehicle, own.paint) }

  function ClientOf(v: View, own: Info): Option<N.Client>
    requires v.In?
  {
    Some(N.Client(true, v.session, v.player, own.incarnation))
  }

  predicate Refuses(v: View, own: Info, s: PlayerState)
    requires v.In?
  {
    N.StateVerdict(v.remotes, v.session, ClientOf(v, own), OwnOf(own), StateOf(s), true) == N.Refuse
  }

  function Joining(v: View, own: Info, i: Info): View {
    if !v.In? then v
    else
      var j := JoinedOf(i);
      if N.JoinVerdict(v.remotes, v.session, ClientOf(v, own), OwnOf(own), j, true) == N.Refuse then Failed
      else v.(remotes := v.remotes[j.player := N.AfterJoin(N.PeerOf(v.remotes, j.player), j)])
  }

  /** One message of the coordinator; a failed sidecar stays so until another welcome. The states
      change no roster. Pings and disconnects are the transport's. */
  function Follow(v: View, own: Info, m: Message): View {
    match m
    case ServerWelcome(_, session, player, _, _, _) => In(map[], session, player)
    case PeerJoined(i) => Joining(v, own, i)
    case SpawnMetadata(i) => Joining(v, own, i)
    case PeerLeft(player, incarnation, _) =>
      if !v.In? then v
      else if player == v.player then Failed
      else if N.Has(v.remotes, player, incarnation) then v.(remotes := v.remotes - {player})
      else v
    case State(s) => if v.In? && Refuses(v, own, s) then Failed else v
    case Snapshot(_, _, players) => if v.In? && (exists s :: s in players && Refuses(v, own, s)) then Failed else v
    case _ => v
  }

  function FollowAll(v: View, own: Info, messages: seq<Message>): View {
    if messages == [] then v else Follow(FollowAll(v, own, messages[..|messages| - 1]), own, messages[|messages| - 1])
  }

  lemma {:induction false} FollowConcat(v: View, own: Info, a: seq<Message>, b: seq<Message>)
    ensures FollowAll(v, own, a + b) == FollowAll(FollowAll(v, own, a), own, b)
  {
    if b == [] {
      assert a + b == a;
    } else {
      assert (a + b)[..|a + b| - 1] == a + b[..|b| - 1];
      FollowConcat(v, own, a, b[..|b| - 1]);
    }
  }

  lemma FollowOne(v: View, own: Info, m: Message)
    ensures FollowAll(v, own, [m]) == Follow(v, own, m)
  {
    assert [m][..0] == [];
    assert FollowAll(v, own, []) == v;
  }

  lemma {:induction false} FailedStays(own: Info, messages: seq<Message>)
    requires forall m :: m in messages ==> !m.ServerWelcome?
    ensures FollowAll(Failed, own, messages) == Failed
  {
    if messages != [] {
      FailedStays(own, messages[..|messages| - 1]);
    }
  }

  // ----- the roster of the session in the sidecar -------------------------------------------

  function PlayersOf(peers: Peers, ids: set<ConnectionId>): set<nat>
    requires ids <= peers.Keys
  {
    set d | d in ids :: peers[d].info.player
  }

  predicate Knows(remotes: N.Remotes, i: Info) {
    && i.player in remotes
    && var p := remotes[i.player];
       p.hasMetadata && (p.player, p.incarnation, p.vehicle, p.paint, p.name)
         == (i.player, i.incarnation, i.vehicle, i.paint, i.name)
  }

  /** The sidecar of `own` knows exactly the members `ids`. */
  ghost predicate Mirrors(v: View, own: Info, session: nat, peers: Peers, ids: set<ConnectionId>) {
    && v.In? && v.session == session && v.player == own.player && ids <= peers.Keys
    && v.remotes.Keys == PlayersOf(peers, ids)
    && forall d :: d in ids ==> Knows(v.remotes, peers[d].info)
  }

  predicate Apart(a: Info, b: Info) { a.player != b.player && a.name != b.name }

  /** Players and names differ from member to member, and every incarnation is valid. */
  ghost predicate AllApart(peers: Peers) {
    && (forall c, d {:trigger peers[c], peers[d]} ::
          c in peers && d in peers && c != d ==> Apart(peers[c].info, peers[d].info))
    && forall c :: c in peers ==> peers[c].info.player != 0 && peers[c].info.incarnation != 0
  }

  lemma {:induction false} PlayersAreMany(peers: Peers, ids: set<ConnectionId>)
    requires AllApart(peers) && ids <= peers.Keys
    ensures |PlayersOf(peers, ids)| == |ids|
    decreases |ids|
  {
    if ids != {} {
      var d :| d in ids;
      PlayersAreMany(peers, ids - {d});
      assert PlayersOf(peers, ids) == PlayersOf(peers, ids - {d}) + {peers[d].info.player};
      assert forall c :: c in ids - {d} ==> Apart(peers[c].info, peers[d].info);
    } else {
      assert PlayersOf(peers, ids) == {};
    }
  }

  lemma JoinIsDecided(v: View, own: Info, session: nat, peers: Peers, ids: set<ConnectionId>, d: ConnectionId,
                      j: N.Joined)
    requires AllApart(peers) && Mirrors(v, own, session, peers, ids) && session != 0
    requires d in peers && d !in ids && Apart(own, peers[d].info) && j == JoinedOf(peers[d].info)
    ensures j.player !in v.remotes
    ensures N.JoinVerdict(v.remotes, v.session, ClientOf(v, own), OwnOf(own), j, true)
            == if |ids| >= N.MAXIMUM_REMOTES then N.Refuse else N.Take
  {
    PlayersAreMany(peers, ids);
    assert forall c :: c in ids ==> Apart(peers[c].info, peers[d].info);
    forall p | p in v.remotes
      ensures v.remotes[p].name != j.name && p != j.player
    {
      var c :| c in ids && peers[c].info.player == p;
      assert Knows(v.remotes, peers[c].info);
    }
    assert |v.remotes| == |v.remotes.Keys|;
  }

  lemma JoinIsMirrored(v: View, next: View, own: Info, session: nat, peers: Peers, ids: set<ConnectionId>,
                       d: ConnectionId, j: N.Joined)
    requires AllApart(peers) && Mirrors(v, own, session, peers, ids) && d in peers && d !in ids
             && j == JoinedOf(peers[d].info)
    requires next == v.(remotes := v.remotes[j.player := N.AfterJoin(N.NO_PEER, j)])
    ensures Mirrors(next, own, session, peers, ids + {d})
  {
    assert PlayersOf(peers, ids + {d}) == PlayersOf(peers, ids) + {j.player};
    forall c | c in ids
      ensures Knows(next.remotes, peers[c].info)
    {
      assert Knows(v.remotes, peers[c].info) && Apart(peers[c].info, peers[d].info);
    }
  }

  /** A member the sidecar does not know yet is taken exactly while it knows fewer than seven. */
  lemma JoinIsFollowed(v: View, own: Info, session: nat, peers: Peers, ids: set<ConnectionId>, d: ConnectionId)
    requires AllApart(peers) && Mirrors(v, own, session, peers, ids) && session != 0
    requires d in peers && d !in ids && Apart(own, peers[d].info)
    ensures if |ids| >= N.MAXIMUM_REMOTES then Joining(v, own, peers[d].info) == Failed
            else Mirrors(Joining(v, own, peers[d].info), own, session, peers, ids + {d})
  {
    var j := JoinedOf(peers[d].info);
    JoinIsDecided(v, own, session, peers, ids, d, j);
    if |ids| < N.MAXIMUM_REMOTES {
      JoinIsMirrored(v, Joining(v, own, peers[d].info), own, session, peers, ids, d, j);
    }
  }

  /** Hearing of a known member again changes nothing. */
  lemma JoinAgain(v: View, own: Info, session: nat, peers: Peers, ids: set<ConnectionId>, d: ConnectionId)
    requires AllApart(peers) && Mirrors(v, own, session, peers, ids) && session != 0
    requires d in ids && Apart(own, peers[d].info)
    ensures Joining(v, own, peers[d].info) == v
  {
    var j := JoinedOf(peers[d].info);
    assert Knows(v.remotes, peers[d].info);
    forall p | p in v.remotes && p != j.player
      ensures v.remotes[p].name != j.name
    {
      var c :| c in ids && peers[c].info.player == p;
      assert Knows(v.remotes, peers[c].info) && Apart(peers[c].info, peers[d].info);
    }
    assert N.AfterJoin(v.remotes[j.player], j) == v.remotes[j.player];
    assert v.remotes[j.player := v.remotes[j.player]] == v.remotes;
  }

  lemma IntroductionIsFollowed(v: View, own: Info, session: nat, peers: Peers, ids: set<ConnectionId>, d: ConnectionId)
    requires AllApart(peers) && Mirrors(v, own, session, peers, ids) && session != 0
    requires d in peers && d !in ids && Apart(own, peers[d].info)
    ensures var after := FollowAll(v, own, Introduction(peers[d].info));
            if |ids| >= N.MAXIMUM_REMOTES then after == Failed else Mirrors(after, own, session, peers, ids + {d})
  {
    var i := peers[d].info;
    var first := Joining(v, own, i);
    assert Introduction(i) == [PeerJoined(i)] + [SpawnMetadata(i)];
    FollowConcat(v, own, [PeerJoined(i)], [SpawnMetadata(i)]);
    FollowOne(v, own, PeerJoined(i));
    FollowOne(first, own, SpawnMetadata(i));
    JoinIsFollowed(v, own, session, peers, ids, d);
    if |ids| < N.MAXIMUM_REMOTES {
      JoinAgain(first, own, session, peers, ids + {d}, d);
    }
  }

  /** The sidecar of `own` got through the introductions of `ids`, or there were too many. */
  ghost predicate Met(v: View, own: Info, session: nat, peers: Peers, ids: set<ConnectionId>) {
    if |ids| > N.MAXIMUM_REMOTES then v == Failed else Mirrors(v, own, session, peers, ids)
  }

  lemma OneMoreIsMet(v: View, own: Info, session: nat, peers: Peers, ids: set<ConnectionId>, d: ConnectionId)
    requires AllApart(peers) && Met(v, own, session, peers, ids) && session != 0
    requires d in peers && d !in ids && Apart(own, peers[d].info)
    ensures Met(FollowAll(v, own, Introduction(peers[d].info)), own, session, peers, ids + {d})
  {
    if |ids| > N.MAXIMUM_REMOTES {
      FailedStays(own, Introduction(peers[d].info));
    } else {
      IntroductionIsFollowed(v, own, session, peers, ids, d);
    }
  }

  lemma LastOfOrder(order: seq<ConnectionId>, before: seq<ConnectionId>, d: ConnectionId)
    requires order == before + [d] && forall i, j :: 0 <= i < j < |order| ==> order[i] != order[j]
    ensures OnesOf(order) == OnesOf(before) + {d} && d !in OnesOf(before)
  {
    assert order[|before|] == d && forall i :: 0 <= i < |before| ==> before[i] == order[i];
  }

  /** A newcomer, reading of one member after the other, gets through exactly when they are at most
      seven. */
  lemma {:induction false} IntroductionsAreFollowed(v: View, own: Info, session: nat, peers: Peers,
                                                    order: seq<ConnectionId>)
    requires AllApart(peers) && Mirrors(v, own, session, peers, {}) && session != 0
    requires forall d :: d in order ==> d in peers && Apart(own, peers[d].info)
    requires forall i, j :: 0 <= i < j < |order| ==> order[i] != order[j]
    ensures Met(FollowAll(v, own, Introductions(peers, order)), own, session, peers, OnesOf(order))
  {
    if order == [] {
      assert OnesOf(order) == {};
    } else {
      var before, d := order[..|order| - 1], order[|order| - 1];
      var met := FollowAll(v, own, Introductions(peers, before));
      IntroductionsAreFollowed(v, own, session, peers, before);
      FollowConcat(v, own, Introductions(peers, before), Introduction(peers[d].info));
      LastOfOrder(order, before, d);
      OneMoreIsMet(met, own, session, peers, OnesOf(before), d);
    }
  }

  lemma LeavingIsFollowed(v: View, own: Info, session: nat, peers: Peers, ids: set<ConnectionId>, d: ConnectionId,
                          reason: Reason)
    requires AllApart(peers) && Mirrors(v, own, session, peers, ids) && d in ids && Apart(own, peers[d].info)
    ensures Mirrors(Follow(v, own, Farewell(peers[d].info, reason)), own, session, peers, ids - {d})
  {
    assert Knows(v.remotes, peers[d].info);
    assert forall c :: c in ids - {d} ==> Apart(peers[c].info, peers[d].info);
    assert PlayersOf(peers, ids - {d}) == PlayersOf(peers, ids) - {peers[d].info.player};
  }

  // ----- states -----------------------------------------------------------------------------

  ghost predicate FromMember(s: PlayerState, peers: Peers, session: nat) {
    exists d :: d in peers && Genuine(s, peers[d].info, session)
  }

  /** A message no sidecar of the session stumbles over. */
  ghost predicate Harmless(m: Message, peers: Peers, session: nat) {
    match m
    case State(s) => FromMember(s, peers, session)
    case Snapshot(_, _, players) => forall s :: s in players ==> FromMember(s, peers, session)
    case Pong(_, _, _) => true
    case Disconnect(_) => true
    case _ => false
  }

  lemma GenuineIsTaken(v: View, session: nat, peers: Peers, c: ConnectionId, s: PlayerState)
    requires AllApart(peers) && c in peers && session != 0 && FromMember(s, peers, session)
    requires Mirrors(v, peers[c].info, session, peers, peers.Keys - {c})
    ensures !Refuses(v, peers[c].info, s)
  {
    var d :| d in peers && Genuine(s, peers[d].info, session);
    if d != c {
      assert Apart(peers[d].info, peers[c].info) && Knows(v.remotes, peers[d].info);
    }
  }

  lemma {:induction false} HarmlessIsFollowed(v: View, session: nat, peers: Peers, c: ConnectionId,
                                              messages: seq<Message>)
    requires AllApart(peers) && c in peers && session != 0
    requires Mirrors(v, peers[c].info, session, peers, peers.Keys - {c})
    requires forall m :: m in messages ==> Harmless(m, peers, session)
    ensures FollowAll(v, peers[c].info, messages) == v
  {
    if messages != [] {
      var m := messages[|messages| - 1];
      HarmlessIsFollowed(v, session, peers, c, messages[..|messages| - 1]);
      assert m in messages && Harmless(m, peers, session);
      forall s | (m.State? && s == m.state) || (m.Snapshot? && s in m.players)
        ensures !Refuses(v, peers[c].info, s)
      {
        GenuineIsTaken(v, session, peers, c, s);
      }
    }
  }

  lemma {:induction false} JoinMembers(chunks: seq<seq<PlayerState>>, i: nat)
    requires i < |chunks|
    ensures forall s :: s in chunks[i] ==> s in Join(chunks)
  {
    if i > 0 {
      JoinMembers(chunks[1..], i - 1);
    }
  }

  ghost predicate LatestAreGenuine(peers: Peers, session: nat) {
    forall c :: c in peers && peers[c].latest.Some? ==> Genuine(peers[c].latest.value, peers[c].info, session)
  }

  lemma SnapshotsAreHarmless(peers: Peers, session: nat, players: seq<PlayerState>, now: nat, elapsed: nat,
                             staleMs: nat)
    requires LatestAreGenuine(peers, session) && AllFresh(players, peers, peers.Keys, now, staleMs)
    ensures forall m :: m in Snapshots(now, elapsed, Chunks(players)) ==> Harmless(m, peers, session)
  {
    var chunks := Chunks(players);
    ChunksCoverSnapshot(players);
    forall m | m in Snapshots(now, elapsed, chunks)
      ensures Harmless(m, peers, session)
    {
      var i :| 0 <= i < |chunks| && m == Snapshot(now, elapsed, chunks[i]);
      JoinMembers(chunks, i);
      forall s | s in chunks[i]
        ensures FromMember(s, peers, session)
      {
        assert s in players;
        var d :| d in peers.Keys && Fresh(peers[d], now, staleMs) && peers[d].latest.value == s;
        assert Genuine(s, peers[d].info, session);
      }
    }
  }

  // ----- whole runs of a session ------------------------------------------------------------

  /** The most members the session had at once since `c` joined. */
  function Peak(config: Config, events: seq<Event>, c: ConnectionId): nat {
    if events == [] then 0
    else
      var e, members := events[|events| - 1], |Run(config, events).peers|;
      var before := Peak(config, events[..|events| - 1], c);
      if (e.Admitted? && e.connection == c) || members > before then members else before
  }

  ghost predicate Sound(config: Config, w: World) {
    && w.next > 0 && Membership(w.peers, w.next, config) && LatestAreGenuine(w.peers, config.session)
       && AllApart(w.peers)
  }

  lemma ApartMembers(peers: Peers, next: nat, config: Config)
    requires Membership(peers, next, config) && forall c :: c in peers ==> peers[c].info.incarnation != 0
    ensures AllApart(peers)
  {
    forall c, d | c in peers && d in peers && c != d
      ensures Apart(peers[c].info, peers[d].info)
    {
      assert Distinguished(peers, c, d);
    }
  }

  lemma RecordKeepsGenuine(peers: Peers, session: nat, connection: ConnectionId, s: PlayerState, now: nat, maximum: nat)
    requires LatestAreGenuine(peers, session) && connection in peers && Genuine(s, peers[connection].info, session)
    ensures LatestAreGenuine(peers[connection := AfterState(peers[connection], s, now, maximum)], session)
  {
  }

  lemma AdmissionKeepsSound(config: Config, w: World, e: Event)
    requires Sound(config, w) && e.Admitted? && Happens(config, w, e)
    ensures Sound(config, AfterEvent(config, w, e))
  {
    AdmissionKeepsMembership(w.peers, w.next, config, e.connection, e.hello);
    ApartMembers(AfterEvent(config, w, e).peers, w.next + 1, config);
  }

  lemma DepartureKeepsSound(config: Config, w: World, e: Event)
    requires Sound(config, w) && e.Departed? && Happens(config, w, e)
    ensures Sound(config, AfterEvent(config, w, e))
  {
    LeavingKeepsMembership(w.peers, w.next, config, e.connection);
    ApartMembers(w.peers - {e.connection}, w.next, config);
  }

  lemma StateKeepsSound(config: Config, w: World, e: Event)
    requires Sound(config, w) && e.StateReceived? && Happens(config, w, e)
    ensures Sound(config, AfterEvent(config, w, e))
  {
    var peer := AfterState(w.peers[e.connection], e.state, e.now, config.maxUpdates);
    RecordKeepsMembership(w.peers, w.next, config, e.connection, peer);
    RecordKeepsGenuine(w.peers, config.session, e.connection, e.state, e.now, config.maxUpdates);
    ApartMembers(w.peers[e.connection := peer], w.next, config);
  }

  lemma EventKeepsSound(config: Config, w: World, e: Event)
    requires Sound(config, w) && Happens(config, w, e)
    ensures Sound(config, AfterEvent(config, w, e))
  {
    match e
    case Admitted(_, _, _, _, _) => AdmissionKeepsSound(config, w, e);
    case Departed(_, _, _) => DepartureKeepsSound(config, w, e);
    case StateReceived(_, _, _, _) => StateKeepsSound(config, w, e);
    case _ =>
  }

  lemma {:induction false} RunIsSound(config: Config, events: seq<Event>)
    requires Possible(config, events)
    ensures Sound(config, Run(config, events))
  {
    if events != [] {
      RunIsSound(config, events[..|events| - 1]);
      EventKeepsSound(config, Run(config, events[..|events| - 1]), events[|events| - 1]);
    }
  }

  function ViewOf(log: seq<Route>, own: Info, c: ConnectionId): View { FollowAll(Outside, own, To(log, c)) }

  lemma ViewConcat(log: seq<Route>, routes: seq<Route>, own: Info, c: ConnectionId)
    ensures ViewOf(log + routes, own, c) == FollowAll(ViewOf(log, own, c), own, To(routes, c))
  {
    ToConcat(log, routes, c);
    FollowConcat(Outside, own, To(log, c), To(routes, c));
  }

  /** The sidecar of member `c` mirrors the session, or has failed because there were too many members. */
  ghost predicate Kept(v: View, own: Info, session: nat, peers: Peers, c: ConnectionId, peak: nat) {
    && c in peers && peers[c].info == own && |peers| <= peak
    && if peak > MAXIMUM_MEMBERS then v == Failed else Mirrors(v, own, session, peers, peers.Keys - {c})
  }

  lemma MirrorsFrame(v: View, own: Info, session: nat, peers: Peers, next: Peers, ids: set<ConnectionId>)
    requires Mirrors(v, own, session, peers, ids)
    requires ids <= next.Keys && forall d :: d in ids ==> next[d].info == peers[d].info
    ensures Mirrors(v, own, session, next, ids)
  {
    assert PlayersOf(next, ids) == PlayersOf(peers, ids);
  }

  lemma ApartFrom(peers: Peers, c: ConnectionId, peer: Peer)
    requires AllApart(peers[c := peer]) && c !in peers
    ensures AllApart(peers) && forall d :: d in peers ==> Apart(peer.info, peers[d].info)
  {
    var next := peers[c := peer];
    forall a, b | a in peers && b in peers && a != b
      ensures Apart(peers[a].info, peers[b].info)
    {
      assert Apart(next[a].info, next[b].info);
    }
    forall d | d in peers
      ensures Apart(peer.info, peers[d].info) && peers[d].info.player != 0 && peers[d].info.incarnation != 0
    {
      assert Apart(next[c].info, next[d].info) && next[d] == peers[d];
    }
  }

  lemma WelcomeIsFollowed(v: View, own: Info, session: nat, peers: Peers, welcome: Message, told: seq<Message>)
    requires welcome.ServerWelcome? && welcome.session == session && welcome.player == own.player
    ensures var first := In(map[], session, own.player);
            FollowAll(v, own, [welcome] + told) == FollowAll(first, own, told)
              && Mirrors(first, own, session, peers, {})
  {
    FollowConcat(v, own, [welcome], told);
    FollowOne(v, own, welcome);
    assert PlayersOf(peers, {}) == {};
  }

  lemma NewcomerIsKept(v: View, session: nat, peers: Peers, c: ConnectionId, peer: Peer, welcome: Message,
                       order: seq<ConnectionId>)
    requires c !in peers && AllApart(peers[c := peer]) && session != 0 && Enumerates(order, peers.Keys)
    requires welcome.ServerWelcome? && welcome.session == session && welcome.player == peer.info.player
    ensures Kept(FollowAll(v, peer.info, [welcome] + Introductions(peers, order)), peer.info, session,
                 peers[c := peer], c, |peers| + 1)
  {
    var next, own := peers[c := peer], peer.info;
    var first := In(map[], session, own.player);
    var last := FollowAll(first, own, Introductions(peers, order));
    WelcomeIsFollowed(v, own, session, peers, welcome, Introductions(peers, order));
    ApartFrom(peers, c, peer);
    IntroductionsAreFollowed(first, own, session, peers, order);
    assert OnesOf(order) == peers.Keys == next.Keys - {c};
    if |peers| <= N.MAXIMUM_REMOTES {
      MirrorsFrame(last, own, session, peers, next, peers.Keys);
    }
  }

  lemma MemberIsKept(v: View, own: Info, session: nat, peers: Peers, d: ConnectionId, peer: Peer, c: ConnectionId,
                     peak: nat)
    requires d !in peers && AllApart(peers[d := peer]) && session != 0 && Kept(v, own, session, peers, c, peak)
    ensures Kept(FollowAll(v, own, Introduction(peer.info)), own, session, peers[d := peer], c,
                 if |peers| + 1 > peak then |peers| + 1 else peak)
  {
    var next, ids := peers[d := peer], peers.Keys - {c};
    assert next.Keys - {c} == ids + {d} && |ids| == |peers| - 1;
    if peak > MAXIMUM_MEMBERS {
      FailedStays(own, Introduction(peer.info));
    } else {
      MirrorsFrame(v, own, session, peers, next, ids);
      ApartFrom(peers, d, peer);
      IntroductionIsFollowed(v, own, session, next, ids, d);
    }
  }

  lemma KeysWithout(peers: Peers, d: ConnectionId, c: ConnectionId)
    requires d in peers
    ensures (peers - {d}).Keys - {c} == peers.Keys - {c} - {d} && |peers - {d}| < |peers|
  {
    var rest := (peers - {d}).Keys;
    assert rest + {d} == peers.Keys && d !in rest;
    assert |rest + {d}| == |rest| + 1;
  }

  lemma LeaverIsKept(v: View, own: Info, session: nat, peers: Peers, d: ConnectionId, reason: Reason, c: ConnectionId,
                     peak: nat)
    requires d in peers && c != d && AllApart(peers) && Kept(v, own, session, peers, c, peak)
    ensures Kept(FollowAll(v, own, [Farewell(peers[d].info, reason)]), own, session, peers - {d}, c, peak)
  {
    var next, ids, m := peers - {d}, peers.Keys - {c}, Farewell(peers[d].info, reason);
    FollowOne(v, own, m);
    KeysWithout(peers, d, c);
    if peak <= MAXIMUM_MEMBERS {
      assert Apart(peers[c].info, peers[d].info);
      LeavingIsFollowed(v, own, session, peers, ids, d, reason);
      MirrorsFrame(Follow(v, own, m), own, session, peers, next, ids - {d});
    }
  }

  lemma TrafficIsKept(v: View, own: Info, session: nat, peers: Peers, next: Peers, messages: seq<Message>,
                      c: ConnectionId, peak: nat)
    requires AllApart(peers) && session != 0 && Kept(v, own, session, peers, c, peak)
    requires next.Keys == peers.Keys && forall d :: d in peers ==> next[d].info == peers[d].info
    requires forall m :: m in messages ==> Harmless(m, peers, session)
    ensures Kept(FollowAll(v, own, messages), own, session, next, c, peak)
  {
    assert |next.Keys| == |peers.Keys|;
    if peak > MAXIMUM_MEMBERS {
      FailedStays(own, messages);
    } else {
      HarmlessIsFollowed(v, session, peers, c, messages);
      MirrorsFrame(v, own, session, peers, next, peers.Keys - {c});
    }
  }

  lemma {:induction false} AnswersAreHarmless(routes: seq<Route>, c: ConnectionId, peers: Peers, session: nat)
    requires forall r :: r in routes ==> r.message.Pong? || r.message.Disconnect?
    ensures forall m :: m in To(routes, c) ==> Harmless(m, peers, session)
  {
    if routes != [] {
      AnswersAreHarmless(routes[..|routes| - 1], c, peers, session);
    }
  }

  /** What a member reads while nobody comes or goes is harmless. */
  lemma TrafficIsHarmless(config: Config, w: World, e: Event, c: ConnectionId)
    requires Sound(config, w) && Happens(config, w, e) && !e.Admitted? && !e.Departed?
    ensures forall m :: m in To(e.routes, c) ==> Harmless(m, w.peers, config.session)
  {
    match e {
      case StateReceived(connection, s, _, _) => assert FromMember(s, w.peers, config.session);
      case Ticked(now, elapsed, players, _) =>
        SnapshotsAreHarmless(w.peers, config.session, players, now, elapsed, config.staleMs);
      case Answered(routes) => AnswersAreHarmless(routes, c, w.peers, config.session);
    }
  }

  /** The sidecar of a member after a run. */
  ghost predicate Keeps(config: Config, w: World, c: ConnectionId, peak: nat) {
    c in w.peers && Kept(ViewOf(w.log, w.peers[c].info, c), w.peers[c].info, config.session, w.peers, c, peak)
  }

  lemma AdmissionKeeps(config: Config, w: World, e: Event, c: ConnectionId, peak: nat)
    requires e.Admitted? && Happens(config, w, e) && config.session != 0 && AllApart(AfterEvent(config, w, e).peers)
    requires c in AfterEvent(config, w, e).peers && (c != e.connection ==> Keeps(config, w, c, peak))
    ensures var w' := AfterEvent(config, w, e);
            Keeps(config, w', c, if c == e.connection || |w'.peers| > peak then |w'.peers| else peak)
  {
    var peer, own := NewcomerOf(w, e), AfterEvent(config, w, e).peers[c].info;
    var v := ViewOf(w.log, own, c);
    ViewConcat(w.log, e.routes, own, c);
    if c == e.connection {
      NewcomerIsKept(v, config.session, w.peers, c, peer, Welcome(config, w.next, e.now), e.order);
    } else {
      MemberIsKept(v, own, config.session, w.peers, e.connection, peer, c, peak);
    }
  }

  lemma DepartureKeeps(config: Config, w: World, e: Event, c: ConnectionId, peak: nat)
    requires e.Departed? && Happens(config, w, e) && AllApart(w.peers) && c != e.connection && Keeps(config, w, c, peak)
    ensures Keeps(config, AfterEvent(config, w, e), c, peak)
  {
    var own := w.peers[c].info;
    ViewConcat(w.log, e.routes, own, c);
    LeaverIsKept(ViewOf(w.log, own, c), own, config.session, w.peers, e.connection, e.reason, c, peak);
  }

  lemma TrafficKeeps(config: Config, w: World, e: Event, c: ConnectionId, peak: nat)
    requires Sound(config, w) && Happens(config, w, e) && !e.Admitted? && !e.Departed?
    requires config.session != 0 && Keeps(config, w, c, peak)
    ensures Keeps(config, AfterEvent(config, w, e), c, peak)
  {
    var own := w.peers[c].info;
    ViewConcat(w.log, e.routes, own, c);
    TrafficIsHarmless(config, w, e, c);
    TrafficIsKept(ViewOf(w.log, own, c), own, config.session, w.peers, AfterEvent(config, w, e).peers, To(e.routes, c),
                  c,
                  peak);
  }

  lemma EventKeeps(config: Config, w: World, e: Event, c: ConnectionId, peak: nat)
    requires Sound(config, w) && Happens(config, w, e) && Sound(config, AfterEvent(config, w, e)) && config.session != 0
    requires c in AfterEvent(config, w, e).peers && ((e.Admitted? && e.connection == c) || Keeps(config, w, c, peak))
    ensures var w' := AfterEvent(config, w, e);
            Keeps(config, w', c, if (e.Admitted? && e.connection == c) || |w'.peers| > peak then |w'.peers| else peak)
  {
    match e
    case Admitted(_, _, _, _, _) => AdmissionKeeps(config, w, e, c, peak);
    case Departed(_, _, _) => DepartureKeeps(config, w, e, c, peak);
    case _ => TrafficKeeps(config, w, e, c, peak);
  }

  /** Over every run of a session, whatever its members send: the sidecar of a member follows everything
      the coordinator tells it and knows exactly the other members, precisely as long as there have
      never been more than eight of them since it joined; the ninth makes it fail. */
  lemma {:induction false} SidecarsFollow(config: Config, events: seq<Event>, c: ConnectionId)
    requires Possible(config, events) && config.session != 0 && c in Run(config, events).peers
    ensures Keeps(config, Run(config, events), c, Peak(config, events, c))
  {
    if events != [] {
      var prior, e := events[..|events| - 1], events[|events| - 1];
      RunIsSound(config, prior);
      EventKeepsSound(config, Run(config, prior), e);
      if !(e.Admitted? && e.connection == c) {
        SidecarsFollow(config, prior, c);
      }
      EventKeeps(config, Run(config, prior), e, c, Peak(config, prior, c));
    }
  }

  /** So with the session itself: whatever its methods were called with, every member's sidecar has
      followed all that was sent to it so far, up to the same limit. */
  lemma SessionIsFollowed(s: Session, c: ConnectionId)
    requires s.Valid() && c in s.peers
    ensures Keeps(s.config, World(s.peers, s.nextPlayerId, s.log), c, Peak(s.config, s.history, c))
  {
    SidecarsFollow(s.config, s.history, c);
  }

  // ----- the ninth member -------------------------------------------------------------------

  /** An admission that nothing refuses can happen. */
  lemma AnyAdmission(config: Config, w: World, connection: ConnectionId, hello: Hello, now: nat) returns (e: Event)
    requires Refusal(w.peers, config, connection, hello, true).None?
    ensures e.Admitted? && e.connection == connection && e.hello == hello && Happens(config, w, e)
  {
    var info, welcome := NewPeer(connection, hello, w.next).info, Welcome(config, w.next, now);
    var routes, order, todo := [Route(connection, welcome)], [], w.peers.Keys;
    WelcomeIntroduces(w.peers, connection, info, welcome);
    while todo != {}
      invariant Introducing(routes, w.peers, todo, order, connection, info, welcome)
      decreases |todo|
    {
      var d :| d in todo;
      IntroducingNext(routes, w.peers, todo, order, d, connection, info, welcome);
      routes := routes + Pair(connection, w.peers[d].info) + Pair(d, info);
      order, todo := order + [d], todo - {d};
    }
    assert w.peers.Keys - {} == w.peers.Keys;
    e := Admitted(connection, hello, now, routes, order);
  }

  function Caller(config: Config, n: nat): Hello { Hello(config.profile, config.token, seq(n, _ => 'x'), 1, 0, 0) }

  /** Connections 1 to `n` have joined, one after the other. */
  ghost predicate Crowd(config: Config, events: seq<Event>, n: nat) {
    && Possible(config, events) && |Run(config, events).peers| == n
    && (forall c :: c in Run(config, events).peers ==> 1 <= c <= n && |Run(config, events).peers[c].info.name| == c)
    && forall c :: c in Run(config, events).peers ==> Peak(config, events, c) == n
  }

  lemma CrowdGrows(config: Config, prior: seq<Event>, n: nat, e: Event)
    requires Crowd(config, prior, n) && e.Admitted? && e.connection == n + 1 && |e.hello.name| == n + 1
    requires Happens(config, Run(config, prior), e)
    ensures Crowd(config, prior + [e], n + 1)
  {
    var events := prior + [e];
    assert events[..|prior|] == prior;
  }

  lemma {:induction false} CrowdGathers(config: Config, n: nat) returns (events: seq<Event>)
    requires n <= config.maxPlayers
    ensures Crowd(config, events, n)
  {
    events := [];
    if n > 0 {
      var prior := CrowdGathers(config, n - 1);
      var e := AnyAdmission(config, Run(config, prior), n, Caller(config, n), 0);
      CrowdGrows(config, prior, n - 1, e);
      events := prior + [e];
    }
  }

  /** The limit of the session and that of the sidecars do not fit: with room for more than eight, nine
      members can join, and then not one sidecar is left that follows. */
  lemma NinthMemberBreaksAll(config: Config, n: nat) returns (events: seq<Event>)
    requires n <= config.maxPlayers && config.session != 0
    ensures Crowd(config, events, n)
    ensures forall c :: c in Run(config, events).peers ==>
              var w := Run(config, events);
              (ViewOf(w.log, w.peers[c].info, c) == Failed <==> n > MAXIMUM_MEMBERS)
  {
    events := CrowdGathers(config, n);
    forall c | c in Run(config, events).peers
      ensures var w := Run(config, events); (ViewOf(w.log, w.peers[c].info, c) == Failed <==> n > MAXIMUM_MEMBERS)
    {
      SidecarsFollow(config, events, c);
    }
  }
}
