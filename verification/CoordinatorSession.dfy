/** apps/coordinator/session.cpp: membership, state fan-out and snapshots of one online session. */
module CoordinatorSession {
  import opened Options
  import opened Serial
  import opened RateLimiter
  import opened Sequences

  const SNAPSHOT_PLAYERS := 3
  const MAX_PLAYERS := 64
  const MAX_STATE_HZ := 40

  type ConnectionId = nat

  datatype Reason = Normal | ProtocolError | ProfileMismatch | TokenMismatch | SessionFull | DuplicateName | OtherReason

  datatype Info = Info(connection: ConnectionId, player: nat, incarnation: nat, vehicle: nat, paint: nat, name: string)

  datatype Hello = Hello(profile: string, token: int, name: string, incarnation: nat, vehicle: nat, paint: nat)

  datatype PlayerState = PlayerState(session: nat, player: nat, incarnation: nat, sequence: u32, vehicle: nat,
                                     paint: nat, body: int)

  datatype Message =
    | ServerWelcome(profile: string, session: nat, player: nat, time: nat, maxPlayers: nat, stateHz: nat)
    | PeerJoined(info: Info)
    | SpawnMetadata(info: Info)
    | PeerLeft(player: nat, incarnation: nat, reason: Reason)
    | Ping(nonce: nat, time: nat)
    | Pong(nonce: nat, clientTime: nat, serverTime: nat)
    | Disconnect(reason: Reason)
    | State(state: PlayerState)
    | Snapshot(time: nat, elapsed: nat, players: seq<PlayerState>)
    | ClientHello(hello: Hello)

  datatype Route = Route(target: ConnectionId, message: Message)

  datatype Dispatch = Dispatch(accepted: bool, reason: Reason, routes: seq<Route>)

  datatype Peer = Peer(info: Info, latest: Option<PlayerState>, latestReceived: nat, times: seq<nat>)

  type Peers = map<ConnectionId, Peer>

  datatype Config = Config(profile: string, token: int, tokenRequired: bool, session: nat, maxPlayers: nat,
                           stateHz: nat, maxUpdates: nat, staleMs: nat)

  // ----- what a member learns ---------------------------------------------------------------

  datatype Member = Member(player: nat, incarnation: nat)

  type Roster = set<Member>

  /** One message as a member reads it: a welcome starts an empty roster. */
  function Read(known: Option<Roster>, m: Message): Option<Roster> {
    match m
    case ServerWelcome(_, _, _, _, _, _) => Some({})
    case PeerJoined(i) => Told(known, i)
    case SpawnMetadata(i) => Told(known, i)
    case PeerLeft(player, incarnation, _) =>
        if known.Some? then Some(known.value - {Member(player, incarnation)}) else None
    case _ => known
  }

  function Told(known: Option<Roster>, info: Info): Option<Roster> {
    if known.Some? then Some((set m | m in known.value && m.player != info.player) + {Named(info)}) else None
  }

  function Named(info: Info): Member { Member(info.player, info.incarnation) }

  function Learn(known: Option<Roster>, messages: seq<Message>): Option<Roster> {
    if messages == [] then known else Read(Learn(known, messages[..|messages| - 1]), messages[|messages| - 1])
  }

  lemma {:induction false} LearnConcat(known: Option<Roster>, a: seq<Message>, b: seq<Message>)
    ensures Learn(known, a + b) == Learn(Learn(known, a), b)
  {
    if b == [] {
      assert a + b == a;
    } else {
      assert (a + b)[..|a + b| - 1] == a + b[..|b| - 1];
      LearnConcat(known, a, b[..|b| - 1]);
    }
  }

  /** The messages addressed to `c`, in order. */
  function To(routes: seq<Route>, c: ConnectionId): seq<Message> {
    if routes == [] then []
    else
      var r := routes[|routes| - 1];
      To(routes[..|routes| - 1], c) + if r.target == c then [r.message] else []
  }

  lemma {:induction false} ToConcat(a: seq<Route>, b: seq<Route>, c: ConnectionId)
    ensures To(a + b, c) == To(a, c) + To(b, c)
  {
    if b == [] {
      assert a + b == a;
    } else {
      assert (a + b)[..|a + b| - 1] == a + b[..|b| - 1];
      ToConcat(a, b[..|b| - 1], c);
    }
  }

  /** The roster of `c` after every route sent so far. */
  function Replay(log: seq<Route>, c: ConnectionId): Option<Roster> { Learn(None, To(log, c)) }

  lemma ReplayConcat(log: seq<Route>, routes: seq<Route>, c: ConnectionId)
    ensures Replay(log + routes, c) == Learn(Replay(log, c), To(routes, c))
  {
    ToConcat(log, routes, c);
    LearnConcat(None, To(log, c), To(routes, c));
  }

  function Members(peers: Peers, ids: set<ConnectionId>): Roster
    requires ids <= peers.Keys
  {
    set d | d in ids :: Named(peers[d].info)
  }

  /** Every member knows exactly the other members, each with its incarnation. */
  ghost predicate RostersAgree(log: seq<Route>, peers: Peers) {
    forall c {:trigger Replay(log, c)} :: c in peers ==> Replay(log, c) == Some(Members(peers, peers.Keys - {c}))
  }

  predicate Distinguished(peers: Peers, c: ConnectionId, d: ConnectionId)
    requires c in peers && d in peers
  {
    c != d ==> peers[c].info.player != peers[d].info.player && peers[c].info.name != peers[d].info.name
  }

  /** Player ids and display names are unique, ids are never reused, and the session is not
      overfull. */
  ghost predicate Membership(peers: Peers, nextPlayer: nat, config: Config) {
    && 0 !in peers && |peers| <= config.maxPlayers
    && (forall c :: c in peers ==> peers[c].info.connection == c && 0 < peers[c].info.player < nextPlayer)
    && (forall c, d {:trigger Distinguished(peers, c, d)} :: c in peers && d in peers ==> Distinguished(peers, c, d))
    && (forall c :: c in peers && peers[c].latest.Some? ==> peers[c].latest.value.player == peers[c].info.player)
  }

  /** One member's accepted states since it joined, oldest first. */
  datatype History = History(times: seq<nat>, sequences: seq<u32>)

  /** The queue is a suffix of the acceptance times, the accepted numbers strictly increase, and the
      latest state is the last one accepted. */
  ghost predicate Ordered(peer: Peer, h: History, maximum: nat) {
    && |h.times| == |h.sequences| && Suffix(peer.times, h.times) && |peer.times| <= maximum
    && (peer.latest.Some? <==> h.sequences != [])
    && (peer.latest.Some? ==> peer.latest.value.sequence == h.sequences[|h.sequences| - 1])
    && Ascending(h.sequences)
  }

  /** Any `maximum` + 1 consecutive accepted states span at least a second. */
  ghost predicate Limited(peer: Peer, h: History, clock: nat, maximum: nat) {
    Tracks(peer.times, h.times, clock, maximum) && Spaced(h.times, maximum)
  }

  // ----- joining ----------------------------------------------------------------------------

  /** The first reason to turn a connection away. */
  function Refusal(peers: Peers, config: Config, connection: ConnectionId, hello: Hello,
                   helloValid: bool): Option<Reason>
  {
    if connection == 0 || connection in peers || !helloValid || hello.incarnation == 0 then Some(ProtocolError)
    else if hello.profile != config.profile then Some(ProfileMismatch)
    else if config.tokenRequired && hello.token != config.token then Some(TokenMismatch)
    else if |peers| >= config.maxPlayers then Some(SessionFull)
    else if exists c :: c in peers && peers[c].info.name == hello.name then Some(DuplicateName)
    else None
  }

  function Refused(connection: ConnectionId, reason: Reason): Dispatch {
    Dispatch(false, reason, [Route(connection, Disconnect(reason))])
  }

  /** The two routes that make `info` known to `target`. */
  function Pair(target: ConnectionId, info: Info): seq<Route> {
    [Route(target, PeerJoined(info)), Route(target, SpawnMetadata(info))]
  }

  lemma PairTells(target: ConnectionId, info: Info, c: ConnectionId)
    ensures To(Pair(target, info), c) == if c == target then [PeerJoined(info), SpawnMetadata(info)] else []
  {
    var first := [Route(target, PeerJoined(info))];
    assert Pair(target, info)[..1] == first && first[..0] == [];
    assert To(first, c) == To([], c) + if c == target then [PeerJoined(info)] else [];
  }

  lemma LearnPair(known: Option<Roster>, info: Info)
    ensures Learn(known, [PeerJoined(info), SpawnMetadata(info)]) == Told(known, info)
  {
    assert [PeerJoined(info), SpawnMetadata(info)][..1] == [PeerJoined(info)];
    assert Learn(known, [PeerJoined(info)]) == Read(Learn(known, []), PeerJoined(info));
    if known.Some? {
      assert Told(Told(known, info), info).value == Told(known, info).value;
    }
  }

  /** One round of the admission loop, as each connection sees it. */
  lemma PairsAppended(routes: seq<Route>, connection: ConnectionId, newcomer: Info, d: ConnectionId, member: Info,
                      c: ConnectionId)
    requires connection != d
    ensures To(routes + Pair(connection, member) + Pair(d, newcomer), c) ==
            To(routes, c) + (if c == connection then [PeerJoined(member), SpawnMetadata(member)]
                             else if c == d then [PeerJoined(newcomer), SpawnMetadata(newcomer)] else [])
  {
    ToConcat(routes + Pair(connection, member), Pair(d, newcomer), c);
    ToConcat(routes, Pair(connection, member), c);
    PairTells(connection, member, c);
    PairTells(d, newcomer, c);
  }

  lemma MembersPlus(peers: Peers, ids: set<ConnectionId>, d: ConnectionId)
    requires ids <= peers.Keys && d in peers
    requires forall c :: c in ids ==> peers[c].info.player != peers[d].info.player
    ensures Told(Some(Members(peers, ids)), peers[d].info) == Some(Members(peers, ids + {d}))
  {
    var told := Told(Some(Members(peers, ids)), peers[d].info).value;
    var all := Members(peers, ids + {d});
    forall m
      ensures m in told <==> m in all
    {
      if m in all {
        var c :| c in ids + {d} && m == Named(peers[c].info);
        assert c in ids ==> m in Members(peers, ids);
      }
    }
    assert told == all;
  }

  lemma MembersFrame(peers: Peers, next: Peers, ids: set<ConnectionId>)
    requires ids <= peers.Keys && ids <= next.Keys && forall c :: c in ids ==> next[c].info == peers[c].info
    ensures Members(next, ids) == Members(peers, ids)
  {
  }

  function Introduction(info: Info): seq<Message> { [PeerJoined(info), SpawnMetadata(info)] }

  /** The members `order`, one after the other, made known. */
  function Introductions(peers: Peers, order: seq<ConnectionId>): seq<Message>
    requires forall d :: d in order ==> d in peers
  {
    if order == [] then []
    else Introductions(peers, order[..|order| - 1]) + Introduction(peers[order[|order| - 1]].info)
  }

  /** Each of `ids` once. */
  ghost predicate Enumerates(order: seq<ConnectionId>, ids: set<ConnectionId>) {
    && (forall d {:trigger d in order} :: d in order <==> d in ids)
    && (forall i, j :: 0 <= i < j < |order| ==> order[i] != order[j])
  }

  /** Since its welcome the newcomer has learnt the members in `order`, and they have learnt of it;
      nobody else was told anything. */
  ghost predicate Introduced(routes: seq<Route>, peers: Peers, order: seq<ConnectionId>, connection: ConnectionId,
                             info: Info, welcome: Message)
  {
    && (forall d :: d in order ==> d in peers) && welcome.ServerWelcome?
    && To(routes, connection) == [welcome] + Introductions(peers, order)
    && forall c :: c != connection ==> To(routes, c) == if c in order then Introduction(info) else []
  }

  lemma WelcomeIntroduces(peers: Peers, connection: ConnectionId, info: Info, welcome: Message)
    requires connection !in peers && welcome.ServerWelcome?
    ensures Introduced([Route(connection, welcome)], peers, [], connection, info, welcome)
  {
    var routes := [Route(connection, welcome)];
    assert routes[..0] == [];
    forall c
      ensures To(routes, c) == if c == connection then [welcome] else []
    {
      assert To(routes, c) == To([], c) + if c == connection then [welcome] else [];
    }
    assert [welcome] + Introductions(peers, []) == [welcome];
  }

  lemma IntroductionRound(routes: seq<Route>, peers: Peers, order: seq<ConnectionId>, d: ConnectionId,
                          connection: ConnectionId, info: Info, welcome: Message)
    requires d in peers && d !in order && connection !in peers
    requires Introduced(routes, peers, order, connection, info, welcome)
    ensures Introduced(routes + Pair(connection, peers[d].info) + Pair(d, info), peers, order + [d], connection, info,
                       welcome)
  {
    var member := peers[d].info;
    var more := routes + Pair(connection, member) + Pair(d, info);
    forall c | c != connection
      ensures To(more, c) == if c in order + [d] then Introduction(info) else []
    {
      PairsAppended(routes, connection, info, d, member, c);
    }
    PairsAppended(routes, connection, info, d, member, connection);
    assert (order + [d])[..|order|] == order;
    Regrouped([welcome], Introductions(peers, order), Introduction(member));
  }

  function OnesOf(order: seq<ConnectionId>): set<ConnectionId> { set d | d in order }

  /** Introductions teach exactly the members they name. */
  lemma {:induction false} IntroductionsTeach(peers: Peers, order: seq<ConnectionId>)
    requires forall d :: d in order ==> d in peers
    requires forall i, j :: 0 <= i < j < |order| ==> peers[order[i]].info.player != peers[order[j]].info.player
    ensures Learn(Some({}), Introductions(peers, order)) == Some(Members(peers, OnesOf(order)))
  {
    if order == [] {
      assert Members(peers, OnesOf(order)) == {};
    } else {
      var before, d := order[..|order| - 1], order[|order| - 1];
      IntroductionsTeach(peers, before);
      LearnConcat(Some({}), Introductions(peers, before), Introduction(peers[d].info));
      LearnPair(Some(Members(peers, OnesOf(before))), peers[d].info);
      MembersPlus(peers, OnesOf(before), d);
      assert OnesOf(order) == OnesOf(before) + {d};
    }
  }

  /** So does a welcome followed by them, whatever was known before. */
  lemma WelcomeTeaches(known: Option<Roster>, peers: Peers, order: seq<ConnectionId>, welcome: Message)
    requires welcome.ServerWelcome? && Enumerates(order, peers.Keys)
    requires forall c, d :: c in peers && d in peers && c != d ==> peers[c].info.player != peers[d].info.player
    ensures Learn(known, [welcome] + Introductions(peers, order)) == Some(Members(peers, peers.Keys))
  {
    LearnConcat(known, [welcome], Introductions(peers, order));
    assert [welcome][..0] == [];
    assert Learn(known, [welcome]) == Read(Learn(known, []), welcome);
    IntroductionsTeach(peers, order);
    assert OnesOf(order) == peers.Keys;
  }

  /** The newcomer reads its welcome and then of every member, in some order; every member reads of the
      newcomer once; nobody else reads anything. */
  ghost predicate Greets(routes: seq<Route>, peers: Peers, connection: ConnectionId, info: Info, welcome: Message,
                         order: seq<ConnectionId>)
  {
    && Enumerates(order, peers.Keys)
    && To(routes, connection) == [welcome] + Introductions(peers, order)
    && forall c :: c != connection ==> To(routes, c) == if c in peers then Introduction(info) else []
  }

  /** The routes of an admission: every member is told of the newcomer, the newcomer of them all. */
  lemma NewcomerKeepsRosters(log: seq<Route>, routes: seq<Route>, peers: Peers, connection: ConnectionId, peer: Peer,
                             c: ConnectionId)
    requires RostersAgree(log, peers) && connection !in peers && (c in peers || c == connection)
    requires forall c :: c in peers ==> peers[c].info.player != peer.info.player
    requires c in peers ==> To(routes, c) == Introduction(peer.info)
    requires c == connection ==> Learn(Replay(log, c), To(routes, c)) == Some(Members(peers, peers.Keys))
    ensures var next := peers[connection := peer]; Replay(log + routes, c) == Some(Members(next, next.Keys - {c}))
  {
    var next := peers[connection := peer];
    ReplayConcat(log, routes, c);
    MembersFrame(peers, next, peers.Keys - {c});
    if c == connection {
      assert next.Keys - {c} == peers.Keys == peers.Keys - {c};
    } else {
      LearnPair(Replay(log, c), peer.info);
      MembersPlus(next, peers.Keys - {c}, connection);
      assert next.Keys - {c} == peers.Keys - {c} + {connection};
    }
  }

  lemma AdmissionKeepsRosters(log: seq<Route>, routes: seq<Route>, peers: Peers, connection: ConnectionId, peer: Peer,
                              welcome: Message, order: seq<ConnectionId>)
    requires RostersAgree(log, peers) && connection !in peers && welcome.ServerWelcome?
    requires forall c :: c in peers ==> peers[c].info.player != peer.info.player
    requires forall c, d :: c in peers && d in peers && c != d ==> peers[c].info.player != peers[d].info.player
    requires Greets(routes, peers, connection, peer.info, welcome, order)
    ensures RostersAgree(log + routes, peers[connection := peer])
  {
    WelcomeTeaches(Replay(log, connection), peers, order, welcome);
    forall c | c in peers[connection := peer]
      ensures Replay(log + routes, c) == Some(Members(peers[connection := peer], peers[connection := peer].Keys - {c}))
    {
      NewcomerKeepsRosters(log, routes, peers, connection, peer, c);
    }
  }

  // ----- leaving ----------------------------------------------------------------------------

  function Farewell(info: Info, reason: Reason): Message { PeerLeft(info.player, info.incarnation, reason) }

  lemma MembersMinus(peers: Peers, ids: set<ConnectionId>, d: ConnectionId)
    requires ids <= peers.Keys && d in ids
    requires forall c :: c in ids && c != d ==> peers[c].info.player != peers[d].info.player
    ensures Members(peers, ids) - {Named(peers[d].info)} == Members(peers, ids - {d})
  {
  }

  lemma LeaverKeepsRosters(log: seq<Route>, routes: seq<Route>, peers: Peers, d: ConnectionId, reason: Reason,
                           c: ConnectionId)
    requires RostersAgree(log, peers) && d in peers && c in peers && c != d
    requires forall e :: e in peers && e != d ==> peers[e].info.player != peers[d].info.player
    requires To(routes, c) == [Farewell(peers[d].info, reason)]
    ensures var next := peers - {d}; Replay(log + routes, c) == Some(Members(next, next.Keys - {c}))
  {
    var next, m := peers - {d}, Farewell(peers[d].info, reason);
    ReplayConcat(log, routes, c);
    assert Learn(Replay(log, c), [m]) == Read(Learn(Replay(log, c), []), m);
    MembersMinus(peers, peers.Keys - {c}, d);
    assert peers.Keys - {c} - {d} == next.Keys - {c};
    MembersFrame(peers, next, next.Keys - {c});
  }

  lemma LeavingKeepsRosters(log: seq<Route>, routes: seq<Route>, peers: Peers, d: ConnectionId, reason: Reason)
    requires RostersAgree(log, peers) && d in peers
    requires forall e :: e in peers && e != d ==> peers[e].info.player != peers[d].info.player
    requires Delivers(routes, peers.Keys - {d}, Farewell(peers[d].info, reason))
    ensures RostersAgree(log + routes, peers - {d})
  {
    forall c | c in peers && c != d
      ensures Replay(log + routes, c) == Some(Members(peers - {d}, (peers - {d}).Keys - {c}))
    {
      LeaverKeepsRosters(log, routes, peers, d, reason, c);
    }
  }

  predicate Neutral(m: Message) { !(m.ServerWelcome? || m.PeerJoined? || m.SpawnMetadata? || m.PeerLeft?) }

  lemma {:induction false} NeutralTeachesNothing(known: Option<Roster>, routes: seq<Route>, c: ConnectionId)
    requires forall r :: r in routes ==> Neutral(r.message)
    ensures Learn(known, To(routes, c)) == known
  {
    if routes != [] {
      NeutralTeachesNothing(known, routes[..|routes| - 1], c);
      LearnConcat(known, To(routes[..|routes| - 1], c), if routes[|routes| - 1].target == c
                  then [routes[|routes| - 1].message] else []);
    }
  }

  /** Traffic other than membership messages, and changes of the peers' state records, leave every
      roster as it is. */
  lemma NeutralKeepsRosters(log: seq<Route>, routes: seq<Route>, peers: Peers, next: Peers)
    requires RostersAgree(log, peers) && next.Keys == peers.Keys
    requires forall c :: c in peers ==> next[c].info == peers[c].info
    requires forall r :: r in routes ==> Neutral(r.message)
    ensures RostersAgree(log + routes, next)
  {
    forall c | c in next
      ensures Replay(log + routes, c) == Some(Members(next, next.Keys - {c}))
    {
      ReplayConcat(log, routes, c);
      NeutralTeachesNothing(Replay(log, c), routes, c);
      MembersFrame(peers, next, peers.Keys - {c});
    }
  }

  // ----- state traffic ----------------------------------------------------------------------

  function NewPeer(connection: ConnectionId, hello: Hello, player: nat): Peer {
    Peer(Info(connection, player, hello.incarnation, hello.vehicle, hello.paint, hello.name), None, 0, [])
  }

  lemma AdmissionKeepsMembership(peers: Peers, nextPlayer: nat, config: Config, connection: ConnectionId, hello: Hello)
    requires Membership(peers, nextPlayer, config) && nextPlayer > 0
             && Refusal(peers, config, connection, hello, true).None?
    ensures Membership(peers[connection := NewPeer(connection, hello, nextPlayer)], nextPlayer + 1, config)
  {
    var next := peers[connection := NewPeer(connection, hello, nextPlayer)];
    forall c, d | c in next && d in next
      ensures Distinguished(next, c, d)
    {
      assert c in peers && d in peers ==> Distinguished(peers, c, d);
    }
  }

  lemma PlayersDiffer(peers: Peers, nextPlayer: nat, config: Config, d: ConnectionId)
    requires Membership(peers, nextPlayer, config) && d in peers
    ensures forall c :: c in peers && c != d ==> peers[c].info.player != peers[d].info.player
  {
    forall c | c in peers && c != d
      ensures peers[c].info.player != peers[d].info.player
    {
      assert Distinguished(peers, c, d);
    }
  }

  lemma AllDiffer(peers: Peers, nextPlayer: nat, config: Config)
    requires Membership(peers, nextPlayer, config)
    ensures forall c, d :: c in peers && d in peers && c != d ==> peers[c].info.player != peers[d].info.player
  {
    forall d | d in peers
      ensures forall c :: c in peers && c != d ==> peers[c].info.player != peers[d].info.player
    {
      PlayersDiffer(peers, nextPlayer, config, d);
    }
  }

  lemma RecordKeepsMembership(peers: Peers, nextPlayer: nat, config: Config, connection: ConnectionId, peer: Peer)
    requires Membership(peers, nextPlayer, config) && connection in peers && peer.info == peers[connection].info
    requires peer.latest.Some? ==> peer.latest.value.player == peer.info.player
    ensures Membership(peers[connection := peer], nextPlayer, config)
  {
    var next := peers[connection := peer];
    forall c, d | c in next && d in next
      ensures Distinguished(next, c, d)
    {
      assert Distinguished(peers, c, d);
    }
  }

  lemma LeavingKeepsMembership(peers: Peers, nextPlayer: nat, config: Config, connection: ConnectionId)
    requires Membership(peers, nextPlayer, config) && connection in peers
    ensures Membership(peers - {connection}, nextPlayer, config)
  {
    var next := peers - {connection};
    assert next.Keys <= peers.Keys && |peers.Keys| == |next.Keys + {connection}|;
    forall c, d | c in next && d in next
      ensures Distinguished(next, c, d)
    {
      assert Distinguished(peers, c, d);
    }
  }

  predicate Genuine(s: PlayerState, info: Info, session: nat) {
    && s.session == session && s.player == info.player && s.incarnation == info.incarnation
    && s.vehicle == info.vehicle && s.paint == info.paint
  }

  predicate Novel(peer: Peer, s: PlayerState) { peer.latest.None? || Newer(s.sequence, peer.latest.value.sequence) }

  predicate Forwards(peer: Peer, s: PlayerState, now: nat, maximum: nat) {
    Admits(peer.times, now, maximum) && Novel(peer, s)
  }

  function AfterState(peer: Peer, s: PlayerState, now: nat, maximum: nat): Peer {
    var next := peer.(times := Offer(peer.times, now, Novel(peer, s), maximum));
    if Forwards(peer, s, now, maximum) then next.(latest := Some(s), latestReceived := now) else next
  }

  function AfterHistory(peer: Peer, h: History, s: PlayerState, now: nat, maximum: nat): History {
    if Forwards(peer, s, now, maximum) then History(h.times + [now], h.sequences + [s.sequence]) else h
  }

  lemma OrderedAfter(peer: Peer, h: History, s: PlayerState, now: nat, maximum: nat)
    requires Ordered(peer, h, maximum) && maximum > 0
    ensures Ordered(AfterState(peer, s, now, maximum), AfterHistory(peer, h, s, now, maximum), maximum)
  {
    SuffixTrans(Expire(peer.times, now), peer.times, h.times);
    if Forwards(peer, s, now, maximum) {
      SuffixAppend(Expire(peer.times, now), h.times, now);
      AscendingExtends(h.sequences, s.sequence);
    }
  }

  lemma LimitedAfter(peer: Peer, h: History, clock: nat, s: PlayerState, now: nat, maximum: nat)
    requires Limited(peer, h, clock, maximum) && maximum > 0 && clock <= now
    ensures Limited(AfterState(peer, s, now, maximum), AfterHistory(peer, h, s, now, maximum), now, maximum)
  {
    OfferKeepsLimit(peer.times, h.times, clock, now, Novel(peer, s), maximum);
    assert h.times + [] == h.times;
  }

  /** One state offered by a member, valid and genuine, at a server time. */
  datatype Offered = Offered(state: PlayerState, now: nat)

  /** A member's record and its accepted states, from joining on. */
  datatype Trail = Trail(peer: Peer, history: History)

  function AfterOffer(t: Trail, o: Offered, maximum: nat): Trail {
    Trail(AfterState(t.peer, o.state, o.now, maximum), AfterHistory(t.peer, t.history, o.state, o.now, maximum))
  }

  function TrailOf(first: Peer, offers: seq<Offered>, maximum: nat): Trail {
    if offers == [] then Trail(first, History([], []))
    else AfterOffer(TrailOf(first, offers[..|offers| - 1], maximum), offers[|offers| - 1], maximum)
  }

  function LastTime(offers: seq<Offered>): nat { if offers == [] then 0 else offers[|offers| - 1].now }

  predicate NondecreasingClock(offers: seq<Offered>) {
    forall i, j :: 0 <= i <= j < |offers| ==> offers[i].now <= offers[j].now
  }

  /** Whatever a member sends: its accepted states strictly increase in unwrapped sequence number, and
      the queue is a suffix of their times. */
  lemma {:induction false} MemberIsOrdered(connection: ConnectionId, hello: Hello, player: nat, offers: seq<Offered>,
                                           maximum: nat)
    requires maximum > 0
    ensures var t := TrailOf(NewPeer(connection, hello, player), offers, maximum); Ordered(t.peer, t.history, maximum)
  {
    if offers != [] {
      var o := offers[|offers| - 1];
      MemberIsOrdered(connection, hello, player, offers[..|offers| - 1], maximum);
      var t := TrailOf(NewPeer(connection, hello, player), offers[..|offers| - 1], maximum);
      OrderedAfter(t.peer, t.history, o.state, o.now, maximum);
    }
  }

  /** When the server clock never goes back, any `maximum` + 1 consecutive accepted states of a member
      span at least a second. */
  lemma {:induction false} MemberIsLimited(connection: ConnectionId, hello: Hello, player: nat, offers: seq<Offered>,
                                           maximum: nat)
    requires maximum > 0 && NondecreasingClock(offers)
    ensures var t := TrailOf(NewPeer(connection, hello, player), offers, maximum);
            Limited(t.peer, t.history, LastTime(offers), maximum)
  {
    if offers != [] {
      var o := offers[|offers| - 1];
      MemberIsLimited(connection, hello, player, offers[..|offers| - 1], maximum);
      var t := TrailOf(NewPeer(connection, hello, player), offers[..|offers| - 1], maximum);
      LimitedAfter(t.peer, t.history, LastTime(offers[..|offers| - 1]), o.state, o.now, maximum);
    }
  }

  /** A state is refused only for its age or for the limit: with a nondecreasing clock it is forwarded
      exactly when it is novel and fewer than `maximum` states were accepted in the last second. */
  lemma ForwardsExactly(peer: Peer, h: History, clock: nat, s: PlayerState, now: nat, maximum: nat)
    requires Limited(peer, h, clock, maximum) && maximum > 0 && clock <= now
    ensures Forwards(peer, s, now, maximum) <==>
            Novel(peer, s) && (|h.times| < maximum || Expired(h.times[|h.times| - maximum], now))
  {
    OfferKeepsLimit(peer.times, h.times, clock, now, Novel(peer, s), maximum);
  }

  /** Exactly the targets get the messages, each of them once and in order. */
  ghost predicate Sends(routes: seq<Route>, targets: set<ConnectionId>, messages: seq<Message>) {
    forall c :: To(routes, c) == if c in targets then messages else []
  }

  ghost predicate Delivers(routes: seq<Route>, targets: set<ConnectionId>, m: Message) { Sends(routes, targets, [m]) }

  // ----- snapshots --------------------------------------------------------------------------

  predicate Fresh(peer: Peer, now: nat, staleMs: nat) {
    peer.latest.Some? && now >= peer.latestReceived && now - peer.latestReceived < staleMs
  }

  /** `players` are the latest states, as far as fresh, of the members `ids`. */
  ghost predicate AllFresh(players: seq<PlayerState>, peers: Peers, ids: set<ConnectionId>, now: nat, staleMs: nat)
    requires ids <= peers.Keys
  {
    forall s :: s in players <==> exists c :: c in ids && Fresh(peers[c], now, staleMs) && peers[c].latest.value == s
  }

  predicate ByPlayer(s: seq<PlayerState>) { forall i, j :: 0 <= i < j < |s| ==> s[i].player < s[j].player }

  function InsertByPlayer(s: seq<PlayerState>, x: PlayerState): (r: seq<PlayerState>)
    requires ByPlayer(s) && forall y :: y in s ==> y.player != x.player
    ensures ByPlayer(r) && |r| == |s| + 1
    ensures r[0] == if s == [] || x.player < s[0].player then x else s[0]
    ensures forall y :: y in r <==> y in s || y == x
  {
    if s == [] || x.player < s[0].player then [x] + s
    else
      var rest := InsertByPlayer(s[1..], x);
      assert s == [s[0]] + s[1..] && s[0].player < rest[0].player;
      [s[0]] + rest
  }

  function SortByPlayer(s: seq<PlayerState>): (r: seq<PlayerState>)
    requires forall i, j :: 0 <= i < j < |s| ==> s[i].player != s[j].player
    ensures ByPlayer(r) && forall y :: y in r <==> y in s
  {
    if s == [] then []
    else
      assert forall y :: y in s <==> y == s[0] || y in s[1..];
      InsertByPlayer(SortByPlayer(s[1..]), s[0])
  }

  function Chunks(s: seq<PlayerState>): seq<seq<PlayerState>> {
    if |s| <= SNAPSHOT_PLAYERS then [s] else [s[..SNAPSHOT_PLAYERS]] + Chunks(s[SNAPSHOT_PLAYERS..])
  }

  function Join(chunks: seq<seq<PlayerState>>): seq<PlayerState> {
    if chunks == [] then [] else chunks[0] + Join(chunks[1..])
  }

  /** The chunks put together are the snapshot; each fits a packet, none but that of an empty
      snapshot is empty, and there is always one to carry the environment clock. */
  lemma {:induction false} ChunksCoverSnapshot(s: seq<PlayerState>)
    ensures var c := Chunks(s);
            && Join(c) == s && |c| == (if s == [] then 1 else (|s| + SNAPSHOT_PLAYERS - 1) / SNAPSHOT_PLAYERS)
            && forall i :: 0 <= i < |c| ==> |c[i]| <= SNAPSHOT_PLAYERS && (c[i] == [] ==> s == [])
  {
    if |s| > SNAPSHOT_PLAYERS {
      ChunksCoverSnapshot(s[SNAPSHOT_PLAYERS..]);
      assert s == s[..SNAPSHOT_PLAYERS] + s[SNAPSHOT_PLAYERS..];
    } else {
      assert s + [] == s;
    }
  }

  function Snapshots(now: nat, elapsed: nat, chunks: seq<seq<PlayerState>>): (r: seq<Message>)
    ensures |r| == |chunks|
  {
    seq(|chunks|, i requires 0 <= i < |chunks| => Snapshot(now, elapsed, chunks[i]))
  }

  lemma MovedOver(all: set<ConnectionId>, todo: set<ConnectionId>, d: ConnectionId)
    requires d in todo && todo <= all
    ensures all - todo + {d} == all - (todo - {d})
  {
  }

  lemma DeliverOneMore(routes: seq<Route>, done: set<ConnectionId>, d: ConnectionId, m: Message)
    requires Delivers(routes, done, m) && d !in done
    ensures Delivers(routes + [Route(d, m)], done + {d}, m)
  {
    forall c
      ensures To(routes + [Route(d, m)], c) == if c in done + {d} then [m] else []
    {
      ToConcat(routes, [Route(d, m)], c);
      assert To([Route(d, m)], c) == To([], c) + if d == c then [m] else [];
    }
  }

  function Elapsed(epoch: nat, now: nat): nat { if now >= epoch then now - epoch else 0 }

  lemma ChunkTaken(players: seq<PlayerState>, begin: nat, end: nat, sent: seq<seq<PlayerState>>)
    requires begin <= |players|
    requires end == if begin + SNAPSHOT_PLAYERS < |players| then begin + SNAPSHOT_PLAYERS else |players|
    ensures Chunks(players[begin..]) == [players[begin..end]] + if end == |players| then [] else Chunks(players[end..])
    ensures sent + Chunks(players[begin..]) == sent + [players[begin..end]] + if end == |players| then []
            else Chunks(players[end..])
  {
    Regrouped(sent, [players[begin..end]], if end == |players| then [] else Chunks(players[end..]));
    if end < |players| {
      assert players[begin..][..SNAPSHOT_PLAYERS] == players[begin..end]
             && players[begin..][SNAPSHOT_PLAYERS..] == players[end..];
    } else {
      assert players[begin..] == players[begin..end];
    }
  }

  // ----- the session ------------------------------------------------------------------------

  function Clamp(value: nat, maximum: nat): nat { if value < 1 then 1 else if value > maximum then maximum else value }

  /** One message to each target, in any order. */
  method Broadcast(targets: set<ConnectionId>, m: Message) returns (routes: seq<Route>)
    ensures Delivers(routes, targets, m) && forall r :: r in routes ==> r.message == m
  {
    routes := [];
    var todo := targets;
    while todo != {}
      invariant todo <= targets && Delivers(routes, targets - todo, m)
      invariant forall r :: r in routes ==> r.message == m
      decreases |todo|
    {
      var d :| d in todo;
      DeliverOneMore(routes, targets - todo, d, m);
      MovedOver(targets, todo, d);
      routes := routes + [Route(d, m)];
      todo := todo - {d};
    }
    assert targets - todo == targets;
  }

  function Welcome(config: Config, player: nat, now: nat): Message {
    ServerWelcome(config.profile, config.session, player, now, config.maxPlayers, config.stateHz)
  }

  /** The loop of Accept, with the introductions of `todo` still to come. */
  ghost predicate Introducing(routes: seq<Route>, peers: Peers, todo: set<ConnectionId>, order: seq<ConnectionId>,
                              connection: ConnectionId, info: Info, welcome: Message)
  {
    todo <= peers.Keys && Enumerates(order, peers.Keys - todo)
      && Introduced(routes, peers, order, connection, info, welcome)
  }

  lemma IntroducingNext(routes: seq<Route>, peers: Peers, todo: set<ConnectionId>, order: seq<ConnectionId>,
                        d: ConnectionId, connection: ConnectionId, info: Info, welcome: Message)
    requires Introducing(routes, peers, todo, order, connection, info, welcome) && d in todo && connection !in peers
    ensures Introducing(routes + Pair(connection, peers[d].info) + Pair(d, info), peers, todo - {d}, order + [d],
                        connection, info, welcome)
  {
    IntroductionRound(routes, peers, order, d, connection, info, welcome);
    MovedOver(peers.Keys, todo, d);
  }

  lemma IntroducingEnds(log: seq<Route>, routes: seq<Route>, peers: Peers, order: seq<ConnectionId>,
                        connection: ConnectionId, peer: Peer, welcome: Message, config: Config)
    requires connection !in peers && Membership(peers, peer.info.player, config) && RostersAgree(log, peers)
    requires Introducing(routes, peers, {}, order, connection, peer.info, welcome)
    ensures RostersAgree(log + routes, peers[connection := peer])
    ensures Greets(routes, peers, connection, peer.info, welcome, order)
  {
    assert peers.Keys - {} == peers.Keys;
    AllDiffer(peers, peer.info.player, config);
    AdmissionKeepsRosters(log, routes, peers, connection, peer, welcome, order);
  }

  /** The loop of Accept, after the welcome: every pair of introductions, in any order. */
  method Introduce(config: Config, peers: Peers, connection: ConnectionId, peer: Peer, now: nat, ghost log: seq<Route>)
    returns (routes: seq<Route>, ghost order: seq<ConnectionId>)
    requires connection !in peers && Membership(peers, peer.info.player, config) && RostersAgree(log, peers)
    ensures RostersAgree(log + routes, peers[connection := peer])
    ensures Greets(routes, peers, connection, peer.info, Welcome(config, peer.info.player, now), order)
  {
    var welcome := Welcome(config, peer.info.player, now);
    routes, order := [Route(connection, welcome)], [];
    WelcomeIntroduces(peers, connection, peer.info, welcome);
    var todo := peers.Keys;
    assert peers.Keys - todo == {};
    while todo != {}
      invariant Introducing(routes, peers, todo, order, connection, peer.info, welcome)
      decreases |todo|
    {
      var d :| d in todo;
      IntroducingNext(routes, peers, todo, order, d, connection, peer.info, welcome);
      routes := routes + Pair(connection, peers[d].info) + Pair(d, peer.info);
      order := order + [d];
      todo := todo - {d};
    }
    IntroducingEnds(log, routes, peers, order, connection, peer, welcome, config);
  }

  method SendChunks(targets: set<ConnectionId>, now: nat, elapsed: nat, players: seq<PlayerState>)
    returns (routes: seq<Route>)
    ensures Sends(routes, targets, Snapshots(now, elapsed, Chunks(players)))
    ensures forall r :: r in routes ==> Neutral(r.message)
  {
    routes := [];
    ghost var sent: seq<seq<PlayerState>> := [];
    var begin := 0;
    while true
      invariant begin <= |players| && Chunks(players) == sent + Chunks(players[begin..])
      invariant Sends(routes, targets, Snapshots(now, elapsed, sent))
      invariant forall r :: r in routes ==> Neutral(r.message)
      decreases |players| - begin
    {
      var end := if begin + SNAPSHOT_PLAYERS < |players| then begin + SNAPSHOT_PLAYERS else |players|;
      var chunk := players[begin..end];
      var more := Broadcast(targets, Snapshot(now, elapsed, chunk));
      ChunkSent(targets, routes, more, now, elapsed, sent, chunk);
      ChunkTaken(players, begin, end, sent);
      routes := routes + more;
      sent := sent + [chunk];
      if end == |players| {
        break;
      }
      begin := end;
    }
  }

  lemma ChunkSent(targets: set<ConnectionId>, routes: seq<Route>, more: seq<Route>, now: nat, elapsed: nat,
                  sent: seq<seq<PlayerState>>, chunk: seq<PlayerState>)
    requires Sends(routes, targets, Snapshots(now, elapsed, sent))
    requires Delivers(more, targets, Snapshot(now, elapsed, chunk))
    ensures Sends(routes + more, targets, Snapshots(now, elapsed, sent + [chunk]))
  {
    assert Snapshots(now, elapsed, sent + [chunk]) == Snapshots(now, elapsed, sent) + [Snapshot(now, elapsed, chunk)];
    forall c
      ensures To(routes + more, c) == if c in targets then Snapshots(now, elapsed, sent + [chunk]) else []
    {
      ToConcat(routes, more, c);
    }
  }

  // ----- whole runs of a session ------------------------------------------------------------

  /** What a session does, one call after the other. */
  datatype Event =
    | Admitted(connection: ConnectionId, hello: Hello, now: nat, routes: seq<Route>, order: seq<ConnectionId>)
    | Departed(connection: ConnectionId, reason: Reason, routes: seq<Route>)
    | StateReceived(connection: ConnectionId, state: PlayerState, now: nat, routes: seq<Route>)
    | Ticked(now: nat, elapsed: nat, players: seq<PlayerState>, routes: seq<Route>)
    | Answered(routes: seq<Route>)

  datatype World = World(peers: Peers, next: nat, log: seq<Route>)

  const START := World(map[], 1, [])

  function NewcomerOf(w: World, e: Event): Peer
    requires e.Admitted?
  {
    NewPeer(e.connection, e.hello, w.next)
  }

  ghost predicate Happens(config: Config, w: World, e: Event) {
    match e
    case Admitted(connection, hello, now, routes, order) =>
      && Refusal(w.peers, config, connection, hello, true).None?
      && Greets(routes, w.peers, connection, NewcomerOf(w, e).info, Welcome(config, w.next, now), order)
    case Departed(connection, reason, routes) =>
      connection in w.peers && Delivers(routes, w.peers.Keys - {connection}, Farewell(w.peers[connection].info, reason))
    case StateReceived(connection, s, now, routes) =>
      && connection in w.peers && Genuine(s, w.peers[connection].info, config.session)
      && if Forwards(w.peers[connection], s, now, config.maxUpdates)
         then Delivers(routes, w.peers.Keys - {connection}, State(s))
         else routes == []
    case Ticked(now, elapsed, players, routes) =>
      && AllFresh(players, w.peers, w.peers.Keys, now, config.staleMs)
      && Sends(routes, w.peers.Keys, Snapshots(now, elapsed, Chunks(players)))
    case Answered(routes) => forall r :: r in routes ==> r.message.Pong? || r.message.Disconnect?
  }

  function AfterEvent(config: Config, w: World, e: Event): World {
    match e
    case Admitted(connection, _, _, routes, _) =>
        World(w.peers[connection := NewcomerOf(w, e)], w.next + 1, w.log + routes)
    case Departed(connection, _, routes) => World(w.peers - {connection}, w.next, w.log + routes)
    case StateReceived(connection, s, now, routes) =>
      if connection !in w.peers then w
      else
        World(w.peers[connection := AfterState(w.peers[connection], s, now, config.maxUpdates)], w.next, w.log + routes)
    case Ticked(_, _, _, routes) => w.(log := w.log + routes)
    case Answered(routes) => w.(log := w.log + routes)
  }

  function Run(config: Config, events: seq<Event>): World {
    if events == [] then START else AfterEvent(config, Run(config, events[..|events| - 1]), events[|events| - 1])
  }

  ghost predicate Possible(config: Config, events: seq<Event>) {
    events != [] ==>
      var prior := events[..|events| - 1];
      Possible(config, prior) && Happens(config, Run(config, prior), events[|events| - 1])
  }

  /** The events `history` are possible, and this is what they lead to. */
  ghost predicate Explains(history: seq<Event>, config: Config, w: World) {
    Possible(config, history) && Run(config, history) == w
  }

  lemma OneMoreEvent(history: seq<Event>, config: Config, w: World, e: Event)
    requires Explains(history, config, w) && Happens(config, w, e)
    ensures Explains(history + [e], config, AfterEvent(config, w, e))
  {
    assert (history + [e])[..|history|] == history;
  }

  lemma LeavingKeepsAll(config: Config, peers: Peers, nextPlayer: nat, log: seq<Route>, routes: seq<Route>,
                        history: seq<Event>, d: ConnectionId, reason: Reason)
    requires Membership(peers, nextPlayer, config) && RostersAgree(log, peers) && d in peers
    requires Explains(history, config, World(peers, nextPlayer, log))
    requires Delivers(routes, peers.Keys - {d}, Farewell(peers[d].info, reason))
    ensures Membership(peers - {d}, nextPlayer, config) && RostersAgree(log + routes, peers - {d})
    ensures Explains(history + [Departed(d, reason, routes)], config, World(peers - {d}, nextPlayer, log + routes))
  {
    PlayersDiffer(peers, nextPlayer, config, d);
    LeavingKeepsMembership(peers, nextPlayer, config, d);
    LeavingKeepsRosters(log, routes, peers, d, reason);
    OneMoreEvent(history, config, World(peers, nextPlayer, log), Departed(d, reason, routes));
  }

  class Session {
    const config: Config
    var peers: Peers
    var nextPlayerId: nat
    var nextSnapshot: nat
    var epoch: Option<nat>

    /** Every route handed out. */
    ghost var log: seq<Route>
    /** What happened so far. */
    ghost var history: seq<Event>

    ghost function Now(): World
      reads this
    {
      World(peers, nextPlayerId, log)
    }

    ghost predicate Valid()
      reads this
    {
      && 1 <= config.maxPlayers <= MAX_PLAYERS && 1 <= config.stateHz <= MAX_STATE_HZ && config.maxUpdates >= 1
         && config.session != 0
      && Membership(peers, nextPlayerId, config) && nextPlayerId > 0
      && RostersAgree(log, peers) && Explains(history, config, Now())
    }

    /** Settings out of range are moved to the nearest bound; the others are taken as they are. */
    constructor (raw: Config)
      ensures Valid() && peers == map[] && log == [] && history == []
      ensures config == raw.(maxPlayers := config.maxPlayers, stateHz := config.stateHz,
                             maxUpdates := config.maxUpdates, session := config.session)
      ensures config.maxPlayers == raw.maxPlayers || (raw.maxPlayers == 0 && config.maxPlayers == 1)
              || (raw.maxPlayers > MAX_PLAYERS && config.maxPlayers == MAX_PLAYERS)
      ensures config.stateHz == raw.stateHz || (raw.stateHz == 0 && config.stateHz == 1)
              || (raw.stateHz > MAX_STATE_HZ && config.stateHz == MAX_STATE_HZ)
      ensures config.maxUpdates == raw.maxUpdates || (raw.maxUpdates == 0 && config.maxUpdates == 1)
      ensures config.session == raw.session || (raw.session == 0 && config.session == 1)
      ensures nextPlayerId == 1 && nextSnapshot == 0 && epoch == None
    {
      config := raw.(maxPlayers := Clamp(raw.maxPlayers, MAX_PLAYERS), stateHz := Clamp(raw.stateHz, MAX_STATE_HZ),
                     maxUpdates := if raw.maxUpdates < 1 then 1 else raw.maxUpdates,
                     session := if raw.session == 0 then 1 else raw.session);
      peers, nextPlayerId, nextSnapshot, epoch := map[], 1, 0, None;
      log, history := [], [];
    }

    /** The history with one more event, which leads to the state that it describes. */
    ghost function Noted(e: Event): (more: seq<Event>)
      requires Valid() && Happens(config, Now(), e)
      reads this
      ensures Explains(more, config, AfterEvent(config, Now(), e)) && history <= more
    {
      OneMoreEvent(history, config, Now(), e);
      history + [e]
    }

    /** A refused connection only gets a Disconnect; an accepted one and every member learn of each
        other. */
    method Accept(connection: ConnectionId, hello: Hello, helloValid: bool, now: nat) returns (r: Dispatch)
      requires Valid()
      modifies this
      ensures Valid() && log == old(log) + r.routes && old(history) <= history
      ensures nextSnapshot == old(nextSnapshot)
      ensures var refusal := Refusal(old(peers), config, connection, hello, helloValid);
              if refusal.Some? then
                && r == Refused(connection, refusal.value)
                && peers == old(peers) && nextPlayerId == old(nextPlayerId) && epoch == old(epoch)
              else
                && r.accepted && nextPlayerId == old(nextPlayerId) + 1
                && peers == old(peers)[connection := NewPeer(connection, hello, old(nextPlayerId))]
                && epoch == (if old(epoch).None? then Some(now) else old(epoch))
                && exists order :: Greets(r.routes, old(peers), connection, peers[connection].info,
                                          Welcome(config, old(nextPlayerId), now), order)
    {
      var refusal := Refusal(peers, config, connection, hello, helloValid);
      if refusal.Some? {
        r := Rejected(connection, refusal.value);
      } else {
        var routes, _ := Admit(connection, hello, now);
        r := Dispatch(true, Normal, routes);
      }
    }

    method Admit(connection: ConnectionId, hello: Hello, now: nat)
      returns (routes: seq<Route>, ghost order: seq<ConnectionId>)
      requires Valid() && Refusal(peers, config, connection, hello, true).None?
      modifies this
      ensures Valid() && log == old(log) + routes && old(history) <= history
      ensures nextPlayerId == old(nextPlayerId) + 1 && nextSnapshot == old(nextSnapshot)
      ensures peers == old(peers)[connection := NewPeer(connection, hello, old(nextPlayerId))]
      ensures epoch == (if old(epoch).None? then Some(now) else old(epoch))
      ensures Greets(routes, old(peers), connection, peers[connection].info, Welcome(config, old(nextPlayerId), now),
                     order)
    {
      var peer := NewPeer(connection, hello, nextPlayerId);
      AdmissionKeepsMembership(peers, nextPlayerId, config, connection, hello);
      routes, order := Introduce(config, peers, connection, peer, now, log);
      peers, nextPlayerId, log, history := peers[connection := peer], nextPlayerId + 1, log + routes,
        Noted(Admitted(connection, hello, now, routes, order));
      if epoch.None? {
        epoch := Some(now);
      }
    }

    method Rejected(connection: ConnectionId, reason: Reason) returns (r: Dispatch)
      requires Valid()
      modifies this`log, this`history
      ensures Valid() && log == old(log) + r.routes && old(history) <= history
      ensures r == Refused(connection, reason)
    {
      r := Refused(connection, reason);
      Answer(r.routes);
    }

    /** The only effect of routes that tell nobody of a member. */
    ghost method Answer(routes: seq<Route>)
      requires Valid() && Happens(config, Now(), Answered(routes))
      modifies this`log, this`history
      ensures Valid() && log == old(log) + routes && old(history) <= history
    {
      NeutralKeepsRosters(log, routes, peers, peers);
      history := Noted(Answered(routes));
      log := log + routes;
    }

    /** One client message after ClientHello. `stateValid` is the outcome of the shared validation. */
    method Receive(connection: ConnectionId, message: Message, stateValid: bool, now: nat) returns (r: Dispatch)
      requires Valid()
      modifies this
      ensures Valid() && log == old(log) + r.routes && old(history) <= history
      ensures nextPlayerId == old(nextPlayerId) && nextSnapshot == old(nextSnapshot) && epoch == old(epoch)
      ensures connection !in old(peers) ==>
                peers == old(peers) && r == Refused(connection, ProtocolError)
      ensures connection in old(peers) ==>
                match message
                case Ping(nonce, time) => peers == old(peers)
                    && r == Dispatch(true, Normal, [Route(connection, Pong(nonce, time, now))])
                case Disconnect(_) => peers == old(peers) && r == Dispatch(false, Normal, [])
                case State(s) =>
                  var peer := old(peers)[connection];
                  if !stateValid || !Genuine(s, peer.info, config.session) then
                    peers == old(peers) && r == Refused(connection, ProtocolError)
                  else
                    && peers == old(peers)[connection := AfterState(peer, s, now, config.maxUpdates)] && r.accepted
                    && if Forwards(peer, s, now, config.maxUpdates)
                       then Delivers(r.routes, peers.Keys - {connection}, message)
                       else r.routes == []
                case _ => peers == old(peers) && r == Refused(connection, ProtocolError)
    {
      if connection !in peers {
        r := Rejected(connection, ProtocolError);
        return;
      }
      match message {
        case Ping(nonce, time) =>
          r := Dispatch(true, Normal, [Route(connection, Pong(nonce, time, now))]);
          Answer(r.routes);
        case Disconnect(_) =>
          r := Dispatch(false, Normal, []);
          assert log + [] == log;
        case State(s) =>
          if !stateValid || !Genuine(s, peers[connection].info, config.session) {
            r := Rejected(connection, ProtocolError);
          } else {
            var routes := ReceiveState(connection, s, now);
            r := Dispatch(true, Normal, routes);
          }
        case _ =>
          r := Rejected(connection, ProtocolError);
      }
    }

    /** The rate limit, the staleness test and the fan-out. */
    method ReceiveState(connection: ConnectionId, s: PlayerState, now: nat) returns (routes: seq<Route>)
      requires Valid() && connection in peers && Genuine(s, peers[connection].info, config.session)
      modifies this`peers, this`log, this`history
      ensures Valid() && log == old(log) + routes && old(history) <= history
      ensures peers == old(peers)[connection := AfterState(old(peers)[connection], s, now, config.maxUpdates)]
      ensures if Forwards(old(peers)[connection], s, now, config.maxUpdates) then
                Delivers(routes, peers.Keys - {connection}, State(s))
              else routes == []
    {
      var peer := peers[connection];
      var kept := PopExpired(peer.times, now);
      peer := peer.(times := kept);
      routes := [];
      if |peer.times| < config.maxUpdates && Novel(peer, s) {
        peer := peer.(times := peer.times + [now], latest := Some(s), latestReceived := now);
        routes := Broadcast(peers.Keys - {connection}, State(s));
      }
      Record(connection, peer, routes, StateReceived(connection, s, now, routes));
    }

    /** The effects of ReceiveState: the member's record and the routes handed out. */
    method Record(connection: ConnectionId, peer: Peer, routes: seq<Route>, ghost e: Event)
      requires Valid() && connection in peers && peer.info == peers[connection].info
      requires peer.latest.Some? ==> peer.latest.value.player == peer.info.player
      requires forall r :: r in routes ==> Neutral(r.message)
      requires Happens(config, Now(), e)
      requires AfterEvent(config, Now(), e) == World(peers[connection := peer], nextPlayerId, log + routes)
      modifies this`peers, this`log, this`history
      ensures Valid() && log == old(log) + routes && peers == old(peers)[connection := peer] && old(history) <= history
    {
      history := Noted(e);
      NeutralKeepsRosters(log, routes, peers, peers[connection := peer]);
      RecordKeepsMembership(peers, nextPlayerId, config, connection, peer);
      peers := peers[connection := peer];
      log := log + routes;
    }

    /** The leaver is forgotten and every remaining member is told once. */
    method DisconnectPeer(connection: ConnectionId, reason: Reason) returns (routes: seq<Route>)
      requires Valid()
      modifies this`peers, this`log, this`history
      ensures Valid() && log == old(log) + routes && old(history) <= history
      ensures peers == old(peers) - {connection}
      ensures if connection in old(peers)
              then Delivers(routes, peers.Keys, Farewell(old(peers)[connection].info, reason))
              else routes == []
    {
      if connection !in peers {
        routes := [];
        assert log + [] == log && peers - {connection} == peers;
        return;
      }
      var left := Farewell(peers[connection].info, reason);
      routes := Broadcast(peers.Keys - {connection}, left);
      LeavingKeepsAll(config, peers, nextPlayerId, log, routes, history, connection, reason);
      history := history + [Departed(connection, reason, routes)];
      log := log + routes;
      peers := peers - {connection};
    }

    /** The latest states that are not stale, by player id. */
    method CollectFresh(now: nat) returns (players: seq<PlayerState>)
      requires Valid()
      ensures ByPlayer(players) && AllFresh(players, peers, peers.Keys, now, config.staleMs)
    {
      players := [];
      var todo := peers.Keys;
      while todo != {}
        invariant todo <= peers.Keys
        invariant AllFresh(players, peers, peers.Keys - todo, now, config.staleMs)
        invariant forall i, j :: 0 <= i < j < |players| ==> players[i].player != players[j].player
        decreases |todo|
      {
        var d :| d in todo;
        CollectStep(players, todo, d, now);
        if Fresh(peers[d], now, config.staleMs) {
          players := players + [peers[d].latest.value];
        }
        todo := todo - {d};
      }
      players := SortByPlayer(players);
    }

    lemma CollectStep(players: seq<PlayerState>, todo: set<ConnectionId>, d: ConnectionId, now: nat)
      requires Valid() && todo <= peers.Keys && d in todo
      requires AllFresh(players, peers, peers.Keys - todo, now, config.staleMs)
      ensures var more := if Fresh(peers[d], now, config.staleMs) then players + [peers[d].latest.value] else players;
              AllFresh(more, peers, peers.Keys - (todo - {d}), now, config.staleMs)
      ensures Fresh(peers[d], now, config.staleMs) ==>
                forall s :: s in players ==> s.player != peers[d].latest.value.player
    {
      PlayersDiffer(peers, nextPlayerId, config, d);
    }

    /** A due tick sends every member the same chunks, in order: all fresh states, by player id. */
    method Tick(now: nat) returns (routes: seq<Route>)
      requires Valid()
      modifies this`log, this`history, this`nextSnapshot, this`epoch
      ensures Valid() && log == old(log) + routes && old(history) <= history
      ensures old(nextSnapshot) != 0 && now < old(nextSnapshot) ==>
                routes == [] && nextSnapshot == old(nextSnapshot) && epoch == old(epoch)
      ensures old(nextSnapshot) == 0 || now >= old(nextSnapshot) ==>
                && nextSnapshot == now + 1000 / config.stateHz
                && epoch == (if old(epoch).None? then Some(now) else old(epoch))
                && (exists players :: ByPlayer(players) && AllFresh(players, peers, peers.Keys, now, config.staleMs)
                                      && Sends(routes, peers.Keys, Snapshots(now, Elapsed(epoch.value, now),
                                              Chunks(players))))
    {
      if nextSnapshot != 0 && now < nextSnapshot {
        routes := [];
        assert log + [] == log;
        return;
      }
      nextSnapshot := now + 1000 / config.stateHz;
      if epoch.None? {
        epoch := Some(now);
      }
      var players := CollectFresh(now);
      routes := SendChunks(peers.Keys, now, Elapsed(epoch.value, now), players);
      NeutralKeepsRosters(log, routes, peers, peers);
      history := Noted(Ticked(now, Elapsed(epoch.value, now), players, routes));
      log := log + routes;
    }
  }
}
