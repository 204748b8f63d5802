/** apps/launcher/profile_editor.cpp: the in-place edit of the native XAI stream, a tree of tagged,
    sized and aligned chunks. */
module XaiEditor {
  import opened Options
  import opened Serial
  import opened Bytes

  const TOTAL_TAG := Quad(0x54, 0x4F, 0x54, 0x4C) // "TOTL"
  const GLOBALS_TAG := Quad(0x47, 0x4C, 0x42, 0x4C) // "GLBL"
  const PLAYERS_TAG := Quad(0x50, 0x4C, 0x52, 0x53) // "PLRS"
  const PLAYER_TAG := Quad(0x50, 0x4C, 0x59, 0x52) // "PLYR"
  const PLAYER_DATA_TAG := Quad(0x50, 0x4C, 0x59, 0x44) // "PLYD"
  const PLAYER_VEHICLE_TAG := Quad(0x50, 0x56, 0x45, 0x48) // "PVEH"
  /** The bytes of "$$$_LIVE_0_0" and its terminator. */
  const NAME_BYTES := 13
  const VEHICLE_PAYLOAD := 0xFC
  /** The doubles 0.51 and 1.05. */
  const INITIAL_THRESHOLD := Pattern(Quad(0x52, 0xB8, 0x1E, 0x85), Quad(0xEB, 0x51, 0xE0, 0x3F))
  const ACKNOWLEDGED_THRESHOLD := Pattern(Quad(0xCD, 0xCC, 0xCC, 0xCC), Quad(0xCC, 0xCC, 0xF0, 0x3F))
  const GLOBALS_PREFIX := 296
  const GLOBALS_MIDDLE := 21
  const GLOBALS_TAIL := 32
  const MAXIMUM_SIZE := 0x100_0000

  // ----- what the stream says ---------------------------------------------------------------

  datatype Chunk = Chunk(begin: nat, end: nat)

  function ChunkAt(s: Buffer, offset: nat, enclosingEnd: nat): (r: Option<Chunk>)
    ensures r.Some? ==> r.value.begin == offset + 8 <= r.value.end <= enclosingEnd <= |s|
  {
    if enclosingEnd > |s| || enclosingEnd < offset + 8 then None
    else
      var size := LoadU32(s, offset + 4);
      if size > enclosingEnd - (offset + 8) then None else Some(Chunk(offset + 8, offset + 8 + size))
  }

  function AlignUp(n: nat): (r: nat)
    ensures n <= r < n + 4 && r % 4 == 0
  {
    (n + 3) / 4 * 4
  }

  /** The payloads of the players' and globals' containers, in stream order. */
  datatype Top = Top(players: seq<Chunk>, globals: seq<Chunk>)

  const NO_TOP := Top([], [])

  function Joined(a: Top, b: Top): Top { Top(a.players + b.players, a.globals + b.globals) }

  function Sorted(s: Buffer, cursor: nat, c: Chunk): Top {
    if TagIs(s, cursor, PLAYERS_TAG) then Top([c], [])
    else if TagIs(s, cursor, GLOBALS_TAG) then Top([], [c])
    else NO_TOP
  }

  /** Where the walk goes after a chunk; `end` stops it. */
  function Next(c: Chunk, end: nat): (r: Option<nat>)
    ensures r.Some? ==> c.end <= r.value <= end || r.value == end
  {
    if c.end == end then Some(end) else if AlignUp(c.end) <= end then Some(AlignUp(c.end)) else None
  }

  function ScanTop(s: Buffer, cursor: nat, end: nat): Option<Top>
    requires end <= |s|
    decreases end - cursor
  {
    if cursor >= end then Some(NO_TOP)
    else
      var chunk := ChunkAt(s, cursor, end);
      if chunk.None? || Next(chunk.value, end).None? then None
      else
        var rest := ScanTop(s, Next(chunk.value, end).value, end);
        if rest.None? then None else Some(Joined(Sorted(s, cursor, chunk.value), rest.value))
  }

  predicate TotalValid(s: Buffer) {
    TagIs(s, 0, TOTAL_TAG) && ChunkAt(s, 0, |s|) == Some(Chunk(8, |s|))
  }

  function SkipVector(s: Buffer, end: nat, cursor: nat): (r: Option<nat>)
    requires end <= |s|
    ensures r.Some? ==> cursor + 4 <= r.value <= end
  {
    if end < cursor + 4 then None
    else
      var count := LoadU32(s, cursor);
      if count > (end - (cursor + 4)) / 4 then None else Some(cursor + 4 + count * 4)
  }

  /** Offset of the campaign threshold, behind the two vectors of the globals. */
  function ThresholdAt(s: Buffer, g: Chunk): (r: Option<nat>)
    requires g.end <= |s|
    ensures r.Some? ==> g.begin + GLOBALS_PREFIX < r.value && r.value + 8 <= g.end
  {
    if g.end < g.begin + GLOBALS_PREFIX then None
    else
      var first := SkipVector(s, g.end, g.begin + GLOBALS_PREFIX);
      if first.None? || first.value + GLOBALS_MIDDLE > g.end then None
      else
        var second := SkipVector(s, g.end, first.value + GLOBALS_MIDDLE);
        if second.None? || g.end - second.value != GLOBALS_TAIL then None else Some(second.value + 8)
  }

  predicate ThresholdKnown(v: Pattern) { v == INITIAL_THRESHOLD || v == ACKNOWLEDGED_THRESHOLD }

  /** The name compared by fours: "$$$_", "LIVE", "_0_0" and the terminator. */
  predicate NameIs(s: Buffer, at: nat)
    requires at + NAME_BYTES <= |s|
  {
    && QuadAt(s, at) == Quad(0x24, 0x24, 0x24, 0x5F) && QuadAt(s, at + 4) == Quad(0x4C, 0x49, 0x56, 0x45)
    && QuadAt(s, at + 8) == Quad(0x5F, 0x30, 0x5F, 0x30) && s[at + 12] == 0
  }

  predicate IsLocal(s: Buffer, c: Chunk)
    requires c.begin <= c.end <= |s|
  {
    c.begin + NAME_BYTES <= c.end && NameIs(s, c.begin)
  }

  /** The local player's vehicle record: two equal selectors and the object id. */
  function VehicleAt(s: Buffer, c: Chunk): (r: Option<nat>)
    requires c.begin <= c.end <= |s|
    ensures r.Some? ==> c.begin + NAME_BYTES + 16 == r.value && r.value + VEHICLE_PAYLOAD <= c.end
  {
    var dataAt := c.begin + NAME_BYTES;
    var data := ChunkAt(s, dataAt, c.end);
    if data.None? || !TagIs(s, dataAt, PLAYER_DATA_TAG) then None
    else
      var vehicle := ChunkAt(s, data.value.begin, data.value.end);
      if vehicle.None? || !TagIs(s, data.value.begin, PLAYER_VEHICLE_TAG) then None
      else if vehicle.value.end - vehicle.value.begin != VEHICLE_PAYLOAD then None
      else
        var v := vehicle.value.begin;
        if LoadU32(s, v) != LoadU32(s, v + 4) || LoadU32(s, v) > 0xFFFF then None
        else if LoadU32(s, v + 8) == NULL_OBJECT || LoadU32(s, v + 8) == END_PAGE then None
        else Some(v)
  }

  /** One entry of the players' container: the vehicle record of a local player, and where the walk
      goes on. */
  datatype Entry = Entry(own: seq<nat>, next: nat)

  function EntryAt(s: Buffer, cursor: nat, end: nat): (r: Option<Entry>)
    requires end <= |s|
    ensures r.Some? ==> cursor + 8 <= r.value.next <= end && |r.value.own| <= 1
    ensures r.Some? && r.value.own != []
            ==> cursor + 8 < r.value.own[0] && r.value.own[0] + VEHICLE_PAYLOAD <= r.value.next
  {
    var chunk := ChunkAt(s, cursor, end);
    if chunk.None? || !TagIs(s, cursor, PLAYER_TAG) then None
    else
      var c := chunk.value;
      if Next(c, end).None? then None
      else if !IsLocal(s, c) then Some(Entry([], Next(c, end).value))
      else if VehicleAt(s, c).None? then None
      else Some(Entry([VehicleAt(s, c).value], Next(c, end).value))
  }

  /** The vehicle records of all local players, in stream order. */
  function ScanPlayers(s: Buffer, cursor: nat, end: nat): Option<seq<nat>>
    requires end <= |s|
    decreases end - cursor
  {
    if cursor >= end then Some([])
    else
      var e := EntryAt(s, cursor, end);
      if e.None? then None
      else
        var rest := ScanPlayers(s, e.value.next, end);
        if rest.None? then None else Some(e.value.own + rest.value)
  }

  /** Everything an edit needs to know about a well-formed stream. */
  datatype Layout = Layout(players: Chunk, globals: Chunk, threshold: nat, vehicle: nat)

  function Containers(s: Buffer): (r: Option<Layout>)
    ensures r.Some? ==>
              && 16 <= r.value.players.begin <= r.value.players.end <= |s|
              && 16 <= r.value.globals.begin <= r.value.globals.end <= |s|
  {
    if !TotalValid(s) then None
    else
      var top := ScanTop(s, 8, |s|);
      if top.None? || |top.value.players| != 1 || |top.value.globals| != 1 then None
      else
        TopBounds(s, 8, |s|);
        assert top.value.players[0] in top.value.players && top.value.globals[0] in top.value.globals;
        Some(Layout(top.value.players[0], top.value.globals[0], 0, 0))
  }

  function Parse(s: Buffer): (r: Option<Layout>)
    ensures r.Some? ==> r.value.threshold + 8 <= |s| && r.value.vehicle + VEHICLE_PAYLOAD <= |s|
  {
    var found := Containers(s);
    if found.None? then None else Filled(s, found.value)
  }

  /** The layout with the two offsets filled in. */
  function Filled(s: Buffer, l: Layout): (r: Option<Layout>)
    requires l.globals.end <= |s| && l.players.end <= |s|
    ensures r.Some? ==> r.value.threshold + 8 <= l.globals.end && r.value.vehicle + VEHICLE_PAYLOAD <= l.players.end
  {
    var threshold := ThresholdAt(s, l.globals);
    if threshold.None? || !ThresholdKnown(PatternAt(s, threshold.value)) then None
    else
      var vehicles := ScanPlayers(s, l.players.begin, l.players.end);
      if vehicles.None? || |vehicles.value| != 1 then None
      else
        VehiclesBounds(s, l.players.begin, l.players.end);
        assert vehicles.value[0] in vehicles.value;
        Some(l.(threshold := threshold.value, vehicle := vehicles.value[0]))
  }

  predicate Acknowledged(s: Buffer, l: Layout, selector: u32)
    requires l.threshold + 8 <= |s| && l.vehicle + 4 <= |s|
  {
    PatternAt(s, l.threshold) == ACKNOWLEDGED_THRESHOLD && LoadU32(s, l.vehicle) == selector
  }

  /** What the editor answers: in verify mode the edits must be there already. */
  predicate Succeeds(s: Buffer, write: bool, verify: bool, selector: u32) {
    Parse(s).Some? && (write || !verify || Acknowledged(s, Parse(s).value, selector))
  }

  function Selected(s: Buffer, vehicle: nat, selector: u32): (r: Buffer)
    requires vehicle + 8 <= |s|
    ensures |r| == |s|
  {
    Put(Put(s, vehicle, Word(selector)), vehicle + 4, Word(selector))
  }

  function Edited(s: Buffer, l: Layout, selector: u32): (r: Buffer)
    requires l.threshold + 8 <= |s| && l.vehicle + 8 <= |s|
    ensures |r| == |s|
  {
    Selected(Put(s, l.threshold, PatternBytes(ACKNOWLEDGED_THRESHOLD)), l.vehicle, selector)
  }

  // ----- where things are -------------------------------------------------------------------

  lemma {:induction false} TopBounds(s: Buffer, cursor: nat, end: nat)
    requires end <= |s| && ScanTop(s, cursor, end).Some?
    ensures var t := ScanTop(s, cursor, end).value;
            forall c :: c in t.players + t.globals ==> cursor + 8 <= c.begin <= c.end <= end
    decreases end - cursor
  {
    if cursor < end {
      var c := ChunkAt(s, cursor, end).value;
      TopBounds(s, Next(c, end).value, end);
    }
  }

  /** The containers of players and of globals never overlap. */
  lemma {:induction false} TopDisjoint(s: Buffer, cursor: nat, end: nat)
    requires end <= |s| && ScanTop(s, cursor, end).Some?
    ensures var t := ScanTop(s, cursor, end).value;
            forall p, g :: p in t.players && g in t.globals ==> p.end <= g.begin || g.end <= p.begin
    decreases end - cursor
  {
    if cursor < end {
      var c := ChunkAt(s, cursor, end).value;
      TopBounds(s, Next(c, end).value, end);
      TopDisjoint(s, Next(c, end).value, end);
    }
  }

  lemma ContainersDisjoint(s: Buffer)
    requires Containers(s).Some?
    ensures var l := Containers(s).value; l.players.end <= l.globals.begin || l.globals.end <= l.players.begin
  {
    TopDisjoint(s, 8, |s|);
    var t := ScanTop(s, 8, |s|).value;
    assert t.players[0] in t.players && t.globals[0] in t.globals;
  }

  lemma {:induction false} VehiclesBounds(s: Buffer, cursor: nat, end: nat)
    requires end <= |s| && ScanPlayers(s, cursor, end).Some?
    ensures forall v :: v in ScanPlayers(s, cursor, end).value ==> cursor + 8 < v && v + VEHICLE_PAYLOAD <= end
    decreases end - cursor
  {
    if cursor < end {
      VehiclesBounds(s, EntryAt(s, cursor, end).value.next, end);
    }
  }

  // ----- what an edit leaves alone ----------------------------------------------------------

  ghost predicate Covered(t: Top, k: nat) {
    exists c {:trigger c in t.players} {:trigger c in t.globals} :: (c in t.players || c in t.globals)
      && c.begin <= k < c.end
  }

  /** The walk over the containers reads nothing inside the players' and globals' payloads. */
  lemma {:induction false} TopFrame(s: Buffer, r: Buffer, cursor: nat, end: nat)
    requires |r| == |s| && end <= |s| && ScanTop(s, cursor, end).Some?
    requires forall k :: cursor <= k < end && !Covered(ScanTop(s, cursor, end).value, k) ==> s[k] == r[k]
    ensures ScanTop(r, cursor, end) == ScanTop(s, cursor, end)
    decreases end - cursor
  {
    if cursor < end {
      var t, c := ScanTop(s, cursor, end).value, ChunkAt(s, cursor, end).value;
      TopBounds(s, cursor, end);
      forall k | cursor <= k < cursor + 8
        ensures s[k] == r[k]
      {
        assert !Covered(t, k);
      }
      assert ChunkAt(r, cursor, end) == Some(c);
      assert QuadAt(s, cursor) == QuadAt(r, cursor);
      var next := Next(c, end).value;
      var rest := ScanTop(s, next, end).value;
      forall k | next <= k < end && !Covered(rest, k)
        ensures s[k] == r[k]
      {
        assert !Covered(t, k);
      }
      TopFrame(s, r, next, end);
    }
  }

  lemma ThresholdFrame(s: Buffer, r: Buffer, g: Chunk)
    requires g.end <= |s| == |r| && ThresholdAt(s, g).Some?
    requires Agree(s, r, g.begin, ThresholdAt(s, g).value)
    ensures ThresholdAt(r, g) == ThresholdAt(s, g)
  {
    var first := g.begin + GLOBALS_PREFIX;
    assert LoadU32(s, first) == LoadU32(r, first);
    var second := SkipVector(s, g.end, first).value + GLOBALS_MIDDLE;
    assert LoadU32(s, second) == LoadU32(r, second);
  }

  lemma ChunkFrame(s: Buffer, r: Buffer, offset: nat, end: nat)
    requires end <= |s| && Agree(s, r, offset, end)
    ensures ChunkAt(r, offset, end) == ChunkAt(s, offset, end)
  {
    if offset + 8 <= end {
      assert LoadU32(s, offset + 4) == LoadU32(r, offset + 4);
    }
  }

  lemma TagFrame(s: Buffer, r: Buffer, at: nat, tag: Quad, end: nat)
    requires Agree(s, r, at, end) && at + 4 <= end <= |s|
    ensures TagIs(r, at, tag) == TagIs(s, at, tag)
  {
  }

  lemma NameFrame(s: Buffer, r: Buffer, at: nat, end: nat)
    requires Agree(s, r, at, end) && at + NAME_BYTES <= end <= |s|
    ensures NameIs(r, at) == NameIs(s, at)
  {
    assert QuadAt(s, at) == QuadAt(r, at) && QuadAt(s, at + 4) == QuadAt(r, at + 4)
           && QuadAt(s, at + 8) == QuadAt(r, at + 8);
  }

  lemma PlayerFrame(s: Buffer, r: Buffer, c: Chunk)
    requires c.begin <= c.end <= |s| == |r| && Agree(s, r, c.begin, c.end)
    ensures IsLocal(r, c) == IsLocal(s, c) && (IsLocal(s, c) ==> VehicleAt(r, c) == VehicleAt(s, c))
  {
    if c.begin + NAME_BYTES <= c.end {
      NameFrame(s, r, c.begin, c.end);
      var dataAt := c.begin + NAME_BYTES;
      ChunkFrame(s, r, dataAt, c.end);
      if ChunkAt(s, dataAt, c.end).Some? {
        var data := ChunkAt(s, dataAt, c.end).value;
        TagFrame(s, r, dataAt, PLAYER_DATA_TAG, c.end);
        ChunkFrame(s, r, data.begin, data.end);
        if ChunkAt(s, data.begin, data.end).Some? {
          TagFrame(s, r, data.begin, PLAYER_VEHICLE_TAG, data.end);
        }
      }
    }
  }

  lemma EntryFrame(s: Buffer, r: Buffer, cursor: nat, end: nat)
    requires cursor < end <= |s| == |r| && EntryAt(s, cursor, end).Some?
             && Agree(s, r, cursor, EntryAt(s, cursor, end).value.next)
    ensures EntryAt(r, cursor, end) == EntryAt(s, cursor, end)
  {
    var c := ChunkAt(s, cursor, end).value;
    assert LoadU32(s, cursor + 4) == LoadU32(r, cursor + 4);
    TagFrame(s, r, cursor, PLAYER_TAG, c.end);
    PlayerFrame(s, r, c);
  }

  lemma EntryAgrees(s: Buffer, r: Buffer, cursor: nat, end: nat)
    requires cursor < end <= |s| == |r| && Agree(s, r, cursor, end)
    ensures EntryAt(r, cursor, end) == EntryAt(s, cursor, end)
  {
    ChunkFrame(s, r, cursor, end);
    if ChunkAt(s, cursor, end).Some? {
      TagFrame(s, r, cursor, PLAYER_TAG, end);
      PlayerFrame(s, r, ChunkAt(s, cursor, end).value);
    }
  }

  /** The walk over the players reads nothing outside their container. */
  lemma {:induction false} PlayersFrame(s: Buffer, r: Buffer, cursor: nat, end: nat)
    requires end <= |s| == |r| && Agree(s, r, cursor, end)
    ensures ScanPlayers(r, cursor, end) == ScanPlayers(s, cursor, end)
    decreases end - cursor
  {
    if cursor < end {
      EntryAgrees(s, r, cursor, end);
      if EntryAt(s, cursor, end).Some? {
        PlayersFrame(s, r, EntryAt(s, cursor, end).value.next, end);
      }
    }
  }

  /** Equal selectors stored over a vehicle record keep it one. */
  lemma VehicleSelected(s: Buffer, r: Buffer, c: Chunk, selector: u32)
    requires c.begin <= c.end <= |s| == |r| && IsLocal(s, c) && VehicleAt(s, c).Some? && selector <= 0xFFFF
    requires var v := VehicleAt(s, c).value;
             Agree(s, r, c.begin, v) && Agree(s, r, v + 8, c.end) && LoadU32(r, v) == selector == LoadU32(r, v + 4)
    ensures IsLocal(r, c) && VehicleAt(r, c) == VehicleAt(s, c)
  {
    var v, dataAt := VehicleAt(s, c).value, c.begin + NAME_BYTES;
    NameFrame(s, r, c.begin, v);
    TagFrame(s, r, dataAt, PLAYER_DATA_TAG, v);
    TagFrame(s, r, dataAt + 8, PLAYER_VEHICLE_TAG, v);
    assert LoadU32(s, dataAt + 4) == LoadU32(r, dataAt + 4);
    assert LoadU32(s, dataAt + 12) == LoadU32(r, dataAt + 12);
    assert LoadU32(s, v + 8) == LoadU32(r, v + 8);
  }

  predicate LocalEntry(s: Buffer, cursor: nat, end: nat, c: Chunk, v: nat)
    requires cursor < end <= |s|
  {
    && ChunkAt(s, cursor, end) == Some(c) && TagIs(s, cursor, PLAYER_TAG) && Next(c, end).Some?
    && c.begin <= c.end <= |s| && IsLocal(s, c) && VehicleAt(s, c) == Some(v)
  }

  lemma LocalEntryParses(s: Buffer, cursor: nat, end: nat, c: Chunk, v: nat)
    requires cursor < end <= |s| && LocalEntry(s, cursor, end, c, v)
    ensures EntryAt(s, cursor, end) == Some(Entry([v], Next(c, end).value))
  {
  }

  lemma LocalEntrySelected(s: Buffer, r: Buffer, cursor: nat, end: nat, c: Chunk, v: nat, selector: u32)
    requires cursor < end <= |s| == |r| && selector <= 0xFFFF && LocalEntry(s, cursor, end, c, v)
    requires Agree(s, r, cursor, v) && Agree(s, r, v + 8, end) && LoadU32(r, v) == selector == LoadU32(r, v + 4)
    ensures LocalEntry(r, cursor, end, c, v)
  {
    assert LoadU32(s, cursor + 4) == LoadU32(r, cursor + 4);
    TagFrame(s, r, cursor, PLAYER_TAG, c.begin);
    VehicleSelected(s, r, c, selector);
  }

  lemma EntrySelected(s: Buffer, r: Buffer, cursor: nat, end: nat, v: nat, selector: u32)
    requires cursor < end <= |s| == |r| && selector <= 0xFFFF
    requires EntryAt(s, cursor, end).Some? && EntryAt(s, cursor, end).value.own == [v]
    requires v + 8 <= |s| && Agree(s, r, cursor, v) && Agree(s, r, v + 8, end)
             && LoadU32(r, v) == selector == LoadU32(r, v + 4)
    ensures EntryAt(r, cursor, end) == EntryAt(s, cursor, end)
  {
    var c := ChunkAt(s, cursor, end).value;
    assert LocalEntry(s, cursor, end, c, v);
    LocalEntrySelected(s, r, cursor, end, c, v, selector);
    LocalEntryParses(s, cursor, end, c, v);
    LocalEntryParses(r, cursor, end, c, v);
  }

  lemma OneOrOther(own: seq<nat>, rest: seq<nat>, v: nat)
    requires own + rest == [v]
    ensures (own == [v] && rest == []) || (own == [] && rest == [v])
  {
    assert |own| + |rest| == 1;
    if own != [] {
      assert (own + rest)[0] == own[0];
    }
  }

  /** Selecting another model for the only local player leaves it the only local player. */
  lemma {:induction false} PlayersSelected(s: Buffer, r: Buffer, cursor: nat, end: nat, v: nat, selector: u32)
    requires end <= |s| == |r| && ScanPlayers(s, cursor, end) == Some([v]) && selector <= 0xFFFF
    requires v + 8 <= |s| && Agree(s, r, cursor, v) && Agree(s, r, v + 8, end)
             && LoadU32(r, v) == selector == LoadU32(r, v + 4)
    ensures ScanPlayers(r, cursor, end) == Some([v])
    decreases end - cursor
  {
    var e := EntryAt(s, cursor, end).value;
    OneOrOther(e.own, ScanPlayers(s, e.next, end).value, v);
    if e.own == [v] {
      EntrySelected(s, r, cursor, end, v, selector);
      PlayersFrame(s, r, e.next, end);
    } else {
      VehiclesBounds(s, e.next, end);
      assert v in ScanPlayers(s, e.next, end).value;
      EntryFrame(s, r, cursor, end);
      PlayersSelected(s, r, e.next, end, v, selector);
    }
  }

  // ----- edit, then verify ------------------------------------------------------------------

  lemma EditedBytes(s: Buffer, l: Layout, selector: u32)
    requires l.threshold + 8 <= |s| && l.vehicle + 8 <= |s|
    requires l.threshold + 8 <= l.vehicle || l.vehicle + 8 <= l.threshold
    ensures var r := Edited(s, l, selector);
            && (forall k :: 0 <= k < |s| && Elsewhere(l, k) ==> r[k] == s[k])
            && PatternAt(r, l.threshold) == ACKNOWLEDGED_THRESHOLD
               && LoadU32(r, l.vehicle) == selector == LoadU32(r, l.vehicle + 4)
  {
    var latched := Put(s, l.threshold, PatternBytes(ACKNOWLEDGED_THRESHOLD));
    PutPattern(s, l.threshold, ACKNOWLEDGED_THRESHOLD);
    var first := Put(latched, l.vehicle, Word(selector));
    PutLoads(latched, l.vehicle, selector);
    PutLoads(first, l.vehicle + 4, selector);
    var r := Edited(s, l, selector);
    assert LoadU32(r, l.vehicle) == LoadU32(first, l.vehicle);
    assert PatternAt(r, l.threshold) == PatternAt(latched, l.threshold);
  }

  lemma TotalFrame(s: Buffer, r: Buffer)
    requires |r| == |s| && TotalValid(s) && Agree(s, r, 0, 8)
    ensures TotalValid(r)
  {
    assert QuadAt(s, 0) == QuadAt(r, 0) && LoadU32(s, 4) == LoadU32(r, 4);
  }

  lemma SingletonTopFrame(s: Buffer, r: Buffer, t: Top, p: Chunk, g: Chunk)
    requires |r| == |s| && |s| >= 8 && ScanTop(s, 8, |s|) == Some(t) && p in t.players && g in t.globals
    requires forall k :: 8 <= k < |s| && !(p.begin <= k < p.end) && !(g.begin <= k < g.end) ==> s[k] == r[k]
    ensures ScanTop(r, 8, |s|) == Some(t)
  {
    forall k | 8 <= k < |s| && !Covered(t, k)
      ensures s[k] == r[k]
    {
    }
    TopFrame(s, r, 8, |s|);
  }

  lemma ContainersFrame(s: Buffer, r: Buffer)
    requires |r| == |s| && Containers(s).Some?
    requires var l := Containers(s).value;
             forall k ::
               0 <= k < |s| && !(l.players.begin <= k < l.players.end) && !(l.globals.begin <= k < l.globals.end) ==>
                 s[k] == r[k]
    ensures Containers(r) == Containers(s)
  {
    var t, l := ScanTop(s, 8, |s|).value, Containers(s).value;
    TotalFrame(s, r);
    assert l.players in t.players && l.globals in t.globals;
    SingletonTopFrame(s, r, t, l.players, l.globals);
  }

  lemma FilledSelected(s: Buffer, r: Buffer, c: Layout, l: Layout, selector: u32)
    requires c.globals.end <= |s| == |r| && c.players.end <= |s| && selector <= 0xFFFF && Filled(s, c) == Some(l)
    requires Agree(s, r, c.globals.begin, l.threshold) && PatternAt(r, l.threshold) == ACKNOWLEDGED_THRESHOLD
    requires Agree(s, r, c.players.begin, l.vehicle) && Agree(s, r, l.vehicle + 8, c.players.end)
    requires LoadU32(r, l.vehicle) == selector == LoadU32(r, l.vehicle + 4)
    ensures Filled(r, c) == Some(l)
  {
    ThresholdFrame(s, r, c.globals);
    assert ScanPlayers(s, c.players.begin, c.players.end).value == [l.vehicle];
    PlayersSelected(s, r, c.players.begin, c.players.end, l.vehicle, selector);
  }

  /** An edited stream parses to the same layout and passes verification, still names the same
      object, and editing it again changes nothing. Only the eight bytes of the threshold and the
      eight of the two selectors can differ. */
  lemma EditThenVerify(s: Buffer, selector: u32)
    requires Parse(s).Some? && selector <= 0xFFFF
    ensures var l := Parse(s).value; var r := Edited(s, l, selector);
            && (forall k :: 0 <= k < |s| && Elsewhere(l, k) ==> r[k] == s[k])
            && Parse(r) == Some(l) && Succeeds(r, false, true, selector)
            && LoadU32(r, l.vehicle + 8) == LoadU32(s, l.vehicle + 8)
            && Edited(r, l, selector) == r
  {
    var l := Parse(s).value;
    var c := ParsedPlaces(s);
    EditedBytes(s, l, selector);
    SelectedParses(s, Edited(s, l, selector), c, l, selector);
    EditAgain(s, l, selector);
  }

  predicate Elsewhere(l: Layout, k: nat) { !(l.threshold <= k < l.threshold + 8) && !(l.vehicle <= k < l.vehicle + 8) }

  lemma SelectedParses(s: Buffer, r: Buffer, c: Layout, l: Layout, selector: u32)
    requires |r| == |s| && selector <= 0xFFFF && Containers(s) == Some(c) && Filled(s, c) == Some(l)
    requires c.globals.begin <= l.threshold && l.threshold + 8 <= c.globals.end
    requires c.players.begin <= l.vehicle && l.vehicle + VEHICLE_PAYLOAD <= c.players.end
    requires c.players.end <= c.globals.begin || c.globals.end <= c.players.begin
    requires forall k :: 0 <= k < |s| && Elsewhere(l, k) ==> r[k] == s[k]
    requires PatternAt(r, l.threshold) == ACKNOWLEDGED_THRESHOLD
             && LoadU32(r, l.vehicle) == selector == LoadU32(r, l.vehicle + 4)
    ensures Parse(r) == Some(l) && LoadU32(r, l.vehicle + 8) == LoadU32(s, l.vehicle + 8)
  {
    ElsewhereAgrees(s, r, l, c.globals.begin, l.threshold);
    ElsewhereAgrees(s, r, l, c.players.begin, l.vehicle);
    ElsewhereAgrees(s, r, l, l.vehicle + 8, c.players.end);
    ContainersFrame(s, r);
    FilledSelected(s, r, c, l, selector);
  }

  lemma ElsewhereAgrees(s: Buffer, r: Buffer, l: Layout, from: nat, to: nat)
    requires |r| == |s| && forall k :: 0 <= k < |s| && Elsewhere(l, k) ==> r[k] == s[k]
    requires to <= l.threshold || l.threshold + 8 <= from
    requires to <= l.vehicle || l.vehicle + 8 <= from
    ensures Agree(s, r, from, to)
  {
    forall k | from <= k < to && k < |s|
      ensures s[k] == r[k]
    {
      assert Elsewhere(l, k);
    }
  }

  lemma ParsedPlaces(s: Buffer) returns (c: Layout)
    requires Parse(s).Some?
    ensures Containers(s) == Some(c) && Filled(s, c) == Parse(s)
    ensures var l := Parse(s).value;
            && ThresholdAt(s, c.globals) == Some(l.threshold)
               && ScanPlayers(s, c.players.begin, c.players.end) == Some([l.vehicle])
            && c.globals.begin <= l.threshold && l.threshold + 8 <= c.globals.end
            && c.players.begin <= l.vehicle && l.vehicle + VEHICLE_PAYLOAD <= c.players.end
            && (c.players.end <= c.globals.begin || c.globals.end <= c.players.begin)
  {
    c := Containers(s).value;
    ContainersDisjoint(s);
    VehiclesBounds(s, c.players.begin, c.players.end);
    ghost var vehicles := ScanPlayers(s, c.players.begin, c.players.end).value;
    assert Parse(s).value.vehicle in vehicles && vehicles == [Parse(s).value.vehicle];
  }

  lemma EditAgain(s: Buffer, l: Layout, selector: u32)
    requires l.threshold + 8 <= |s| && l.vehicle + 8 <= |s|
    requires l.threshold + 8 <= l.vehicle || l.vehicle + 8 <= l.threshold
    ensures Edited(Edited(s, l, selector), l, selector) == Edited(s, l, selector)
  {
    var w, long, r := Word(selector), PatternBytes(ACKNOWLEDGED_THRESHOLD), Edited(s, l, selector);
    var latched := Put(s, l.threshold, long);
    var first := Put(latched, l.vehicle, w);
    assert latched[l.threshold..l.threshold + 8] == long;
    PutElsewhere(latched, l.vehicle, w, l.threshold, l.threshold + 8);
    PutElsewhere(first, l.vehicle + 4, w, l.threshold, l.threshold + 8);
    assert first[l.vehicle..l.vehicle + 4] == w;
    PutElsewhere(first, l.vehicle + 4, w, l.vehicle, l.vehicle + 4);
    assert r[l.vehicle + 4..l.vehicle + 8] == w;
    PutSame(r, l.threshold, long);
    PutSame(r, l.vehicle, w);
    PutSame(r, l.vehicle + 4, w);
  }

  lemma PutElsewhere(s: Buffer, at: nat, w: Buffer, from: nat, to: nat)
    requires at + |w| <= |s| && from <= to <= |s| && (to <= at || at + |w| <= from)
    ensures Put(s, at, w)[from..to] == s[from..to]
  {
  }

  lemma PutSame(s: Buffer, at: nat, w: Buffer)
    requires at + |w| <= |s| && s[at..at + |w|] == w
    ensures Put(s, at, w) == s
  {
    assert forall k :: at <= k < at + |w| ==> s[at..at + |w|][k - at] == s[k];
  }

  // ----- the editor as the source runs it ---------------------------------------------------

  method SkipU32Vector(view: Buffer, end: nat, cursor: nat) returns (ok: bool, next: nat)
    requires end <= |view|
    ensures ok <==> SkipVector(view, end, cursor).Some?
    ensures ok ==> next == SkipVector(view, end, cursor).value
  {
    next := cursor;
    if cursor > end || end - cursor < 4 {
      return false, next;
    }
    var count := LoadU32(view, next);
    next := next + 4;
    if count > (end - next) / 4 {
      return false, next;
    }
    next := next + count * 4;
    ok := true;
  }

  method FindThreshold(view: Buffer, globals: Chunk) returns (found: Option<nat>)
    requires globals.end <= |view|
    ensures found == ThresholdAt(view, globals)
  {
    if globals.begin > globals.end || globals.end - globals.begin < GLOBALS_PREFIX {
      return None;
    }
    var ok, cursor := SkipU32Vector(view, globals.end, globals.begin + GLOBALS_PREFIX);
    if !ok || cursor > globals.end || GLOBALS_MIDDLE > globals.end - cursor {
      return None;
    }
    ok, cursor := SkipU32Vector(view, globals.end, cursor + GLOBALS_MIDDLE);
    if !ok || cursor > globals.end || globals.end - cursor != GLOBALS_TAIL {
      return None;
    }
    found := Some(cursor + 8);
  }

  method EditCampaignResultLatch(bytes: array<byte>, globals: Chunk, write: bool, verify: bool) returns (ok: bool)
    requires globals.end <= bytes.Length
    modifies bytes
    ensures ok <==> LatchPasses(old(bytes[..]), globals, write, verify)
    ensures bytes[..] == if ok && write
            then Put(old(bytes[..]), ThresholdAt(old(bytes[..]), globals).value, PatternBytes(ACKNOWLEDGED_THRESHOLD))
                         else old(bytes[..])
  {
    var found := FindThreshold(bytes[..], globals);
    if found.None? {
      return false;
    }
    var threshold := PatternAt(bytes[..], found.value);
    if threshold != INITIAL_THRESHOLD && threshold != ACKNOWLEDGED_THRESHOLD {
      return false;
    }
    if write {
      StoreU64(bytes, found.value, ACKNOWLEDGED_THRESHOLD);
    } else if verify && threshold != ACKNOWLEDGED_THRESHOLD {
      return false;
    }
    ok := true;
  }

  predicate LatchPasses(s: Buffer, g: Chunk, write: bool, verify: bool)
    requires g.end <= |s|
  {
    var t := ThresholdAt(s, g);
    t.Some? && ThresholdKnown(PatternAt(s, t.value))
      && (write || !verify || PatternAt(s, t.value) == ACKNOWLEDGED_THRESHOLD)
  }

  /** What the loop over the containers remembers of those it has seen. */
  predicate Remembered(seen: seq<Chunk>, count: nat, last: Chunk) {
    count == |seen| && (seen != [] ==> last == seen[|seen| - 1])
  }

  /** The loop over the containers. */
  method FindContainers(view: Buffer) returns (found: Option<Layout>)
    ensures found == Containers(view)
  {
    if !TagIs(view, 0, TOTAL_TAG) || ChunkAt(view, 0, |view|) != Some(Chunk(8, |view|)) {
      return None;
    }
    var players, globals := Chunk(0, 0), Chunk(0, 0);
    var playersChunks, globalsChunks := 0, 0;
    var cursor, end := 8, |view|;
    ghost var done, whole := NO_TOP, ScanTop(view, 8, end);
    PrefixedNothing(whole);
    while cursor < end
      invariant end == |view| && whole == Prefixed(done, ScanTop(view, cursor, end))
      invariant Remembered(done.players, playersChunks, players) && Remembered(done.globals, globalsChunks, globals)
      decreases end - cursor
    {
      var chunk := ChunkAt(view, cursor, end);
      if chunk.None? {
        return None;
      }
      if TagIs(view, cursor, PLAYERS_TAG) {
        players, playersChunks := chunk.value, playersChunks + 1;
      } else if TagIs(view, cursor, GLOBALS_TAG) {
        globals, globalsChunks := chunk.value, globalsChunks + 1;
      }
      var next := Next(chunk.value, end);
      if next.None? {
        return None;
      }
      ghost var own := Sorted(view, cursor, chunk.value);
      PrefixedStep(done, own, ScanTop(view, next.value, end));
      assert done.players + [] == done.players && done.globals + [] == done.globals;
      done := Joined(done, own);
      cursor := next.value;
    }
    if playersChunks == 1 && globalsChunks == 1 {
      found := Some(Layout(players, globals, 0, 0));
    } else {
      found := None;
    }
  }

  lemma PrefixedNothing(rest: Option<Top>)
    ensures Prefixed(NO_TOP, rest) == rest
  {
    if rest.Some? {
      assert [] + rest.value.players == rest.value.players && [] + rest.value.globals == rest.value.globals;
    }
  }

  function Prefixed(done: Top, rest: Option<Top>): Option<Top> {
    if rest.None? then None else Some(Joined(done, rest.value))
  }

  lemma PrefixedStep(done: Top, own: Top, rest: Option<Top>)
    ensures Prefixed(Joined(done, own), rest) == Prefixed(done, Prefixed(own, rest))
  {
    if rest.Some? {
      assert done.players + own.players + rest.value.players == done.players + (own.players + rest.value.players);
      assert done.globals + own.globals + rest.value.globals == done.globals + (own.globals + rest.value.globals);
    }
  }

  /** The record of one local player. */
  method EditLocalPlayer(bytes: array<byte>, c: Chunk, write: bool, verify: bool, selector: u32)
    returns (ok: bool, objectId: u32)
    requires c.begin + NAME_BYTES <= c.end <= bytes.Length && selector <= 0xFFFF
    modifies bytes
    ensures ok <==>
              && VehicleAt(old(bytes[..]), c).Some?
              && VehiclePasses(old(bytes[..]), VehicleAt(old(bytes[..]), c).value, write, verify, selector)
    ensures ok ==> objectId == LoadU32(old(bytes[..]), VehicleAt(old(bytes[..]), c).value + 8)
    ensures bytes[..] == if ok && write then Selected(old(bytes[..]), VehicleAt(old(bytes[..]), c).value, selector)
            else old(bytes[..])
  {
    var view := bytes[..];
    var found := VehicleAt(view, c);
    if found.None? {
      return false, 0;
    }
    var v := found.value;
    objectId := LoadU32(view, v + 8);
    ok := write || !verify || LoadU32(view, v) == selector;
    if write {
      StoreU32(bytes, v, selector);
      StoreU32(bytes, v + 4, selector);
    }
  }

  predicate VehiclePasses(s: Buffer, v: nat, write: bool, verify: bool, selector: u32)
    requires v + VEHICLE_PAYLOAD <= |s|
  {
    write || !verify || LoadU32(s, v) == selector
  }

  function Following(done: seq<nat>, rest: Option<seq<nat>>): Option<seq<nat>> {
    if rest.None? then None else Some(done + rest.value)
  }

  lemma FollowingNothing(rest: Option<seq<nat>>)
    ensures Following([], rest) == rest
  {
    if rest.Some? {
      assert [] + rest.value == rest.value;
    }
  }

  lemma FollowingStep(done: seq<nat>, own: seq<nat>, rest: Option<seq<nat>>)
    ensures Following(done + own, rest) == Following(done, Following(own, rest))
  {
    if rest.Some? {
      assert done + own + rest.value == done + (own + rest.value);
    }
  }

  /** The bytes after the local players of `done` were edited, as far as that matters: with more
      than one the edit is refused in the end. */
  ghost predicate PlayersEdited(s: Buffer, done: seq<nat>, write: bool, verify: bool, selector: u32, bytes: Buffer,
                                objectId: u32)
  {
    && (done == [] ==> bytes == s)
    && (|done| == 1 ==>
          && done[0] + VEHICLE_PAYLOAD <= |s| && VehiclePasses(s, done[0], write, verify, selector)
          && objectId == LoadU32(s, done[0] + 8) && bytes == if write then Selected(s, done[0], selector) else s)
  }

  lemma PlayersEditedNext(s: Buffer, done: seq<nat>, write: bool, verify: bool, selector: u32, before: Buffer,
                          objectId: u32, own: seq<nat>, after: Buffer, found: u32)
    requires PlayersEdited(s, done, write, verify, selector, before, objectId) && |own| <= 1
    requires own == [] ==> after == before
    requires own != [] ==>
               && own[0] + VEHICLE_PAYLOAD <= |before| && VehiclePasses(before, own[0], write, verify, selector)
               && found == LoadU32(before, own[0] + 8)
                  && after == if write then Selected(before, own[0], selector) else before
    ensures PlayersEdited(s, done + own, write, verify, selector, after, if own != [] then found else objectId)
  {
    if own == [] {
      assert done + own == done;
    } else if done == [] {
      assert done + own == own;
    }
  }

  /** The loop over the players: what it still has to read, no edit has touched. `whole` and `rest`
      are the players of the container and of its unread part. */
  ghost predicate PlayersLoop(s: Buffer, whole: Option<seq<nat>>, done: seq<nat>, rest: Option<seq<nat>>, cursor: nat,
                              end: nat, write: bool, verify: bool, selector: u32, bytes: Buffer, objectId: u32)
  {
    && Agree(s, bytes, cursor, end) && whole == Following(done, rest)
    && PlayersEdited(s, done, write, verify, selector, bytes, objectId)
  }

  lemma SelectedAgrees(s: Buffer, bytes: Buffer, e: Entry, cursor: nat, end: nat, selector: u32)
    requires Agree(s, bytes, cursor, end) && cursor <= e.next
    requires e.own != [] ==> e.own[0] + VEHICLE_PAYLOAD <= e.next && e.next <= |bytes|
    ensures Agree(s, bytes, e.next, end)
    ensures e.own != [] ==> Agree(s, Selected(bytes, e.own[0], selector), e.next, end)
  {
  }

  lemma PlayersLoopStep(s: Buffer, whole: Option<seq<nat>>, done: seq<nat>, rest: Option<seq<nat>>, cursor: nat,
                        end: nat, write: bool, verify: bool, selector: u32, bytes: Buffer, objectId: u32, e: Entry,
                          rest': Option<seq<nat>>, after: Buffer, found: u32)
    requires PlayersLoop(s, whole, done, rest, cursor, end, write, verify, selector, bytes, objectId)
    requires rest == Following(e.own, rest') && |e.own| <= 1 && cursor <= e.next <= |bytes|
    requires e.own != [] ==>
               && e.own[0] + VEHICLE_PAYLOAD <= e.next && VehiclePasses(bytes, e.own[0], write, verify, selector)
               && found == LoadU32(bytes, e.own[0] + 8)
    requires after == if e.own != [] && write then Selected(bytes, e.own[0], selector) else bytes
    ensures PlayersLoop(s, whole, done + e.own, rest', e.next, end, write, verify, selector, after, if e.own != []
                        then found else objectId)
  {
    SelectedAgrees(s, bytes, e, cursor, end, selector);
    FollowingStep(done, e.own, rest');
    PlayersEditedNext(s, done, write, verify, selector, bytes, objectId, e.own, after, found);
  }

  /** What a passing edit of the players means for the list of local players. */
  predicate ListPasses(s: Buffer, whole: Option<seq<nat>>, write: bool, verify: bool, selector: u32) {
    && whole.Some? && |whole.value| == 1 && whole.value[0] + VEHICLE_PAYLOAD <= |s|
    && VehiclePasses(s, whole.value[0], write, verify, selector)
  }

  lemma PlayersLoopRefuses(s: Buffer, whole: Option<seq<nat>>, done: seq<nat>, rest: Option<seq<nat>>, cursor: nat,
                           end: nat, write: bool, verify: bool, selector: u32, bytes: Buffer, objectId: u32,
                             e: Option<Entry>, rest': Option<seq<nat>>)
    requires PlayersLoop(s, whole, done, rest, cursor, end, write, verify, selector, bytes, objectId)
    requires rest == if e.None? then None else Following(e.value.own, rest')
    requires e.Some? ==> |e.value.own| == 1 && e.value.own[0] + VEHICLE_PAYLOAD <= |bytes|
                         && !VehiclePasses(bytes, e.value.own[0], write, verify, selector)
    ensures !ListPasses(s, whole, write, verify, selector)
  {
  }

  lemma PlayersLoopEnds(s: Buffer, whole: Option<seq<nat>>, done: seq<nat>, cursor: nat, end: nat,
                        write: bool, verify: bool, selector: u32, bytes: Buffer, objectId: u32)
    requires PlayersLoop(s, whole, done, Some([]), cursor, end, write, verify, selector, bytes, objectId)
    ensures ListPasses(s, whole, write, verify, selector) <==> |done| == 1
    ensures |done| == 1 ==> ListAnswer(s, whole, write, selector, bytes, objectId)
  {
    assert done + [] == done;
  }

  /** What a passing edit of the players returns. */
  ghost predicate ListAnswer(s: Buffer, whole: Option<seq<nat>>, write: bool, selector: u32, bytes: Buffer,
                             objectId: u32)
  {
    && whole.Some? && |whole.value| == 1 && whole.value[0] + VEHICLE_PAYLOAD <= |s|
    && objectId == LoadU32(s, whole.value[0] + 8) && bytes == if write then Selected(s, whole.value[0], selector) else s
  }

  method EditPlayers(bytes: array<byte>, players: Chunk, write: bool, verify: bool, selector: u32)
    returns (ok: bool, objectId: u32)
    requires players.end <= bytes.Length && selector <= 0xFFFF
    modifies bytes
    ensures ok <==> ListPasses(old(bytes[..]), ScanPlayers(old(bytes[..]), players.begin, players.end), write, verify,
                               selector)
    ensures ok ==> ListAnswer(old(bytes[..]), ScanPlayers(old(bytes[..]), players.begin, players.end), write, selector,
                              bytes[..], objectId)
  {
    objectId := 0;
    var localPlayers, cursor, end := 0, players.begin, players.end;
    ghost var s, done, whole := bytes[..], [], ScanPlayers(bytes[..], players.begin, end);
    FollowingNothing(whole);
    while cursor < end
      invariant end == players.end && localPlayers == |done|
      invariant PlayersLoop(s, whole, done, ScanPlayers(s, cursor, end), cursor, end, write, verify, selector,
                            bytes[..], objectId)
      decreases players.end - cursor
    {
      var entry;
      entry, objectId := EditNextPlayer(bytes, cursor, end, write, verify, selector, objectId, s, whole, done);
      if entry.None? {
        return false, objectId;
      }
      localPlayers := localPlayers + |entry.value.own|;
      done := done + entry.value.own;
      cursor := entry.value.next;
    }
    PlayersLoopEnds(s, whole, done, cursor, end, write, verify, selector, bytes[..], objectId);
    ok := localPlayers == 1;
  }

  lemma BodyRefuses(s: Buffer, whole: Option<seq<nat>>, done: seq<nat>, cursor: nat, end: nat,
                    write: bool, verify: bool, selector: u32, bytes: Buffer, objectId: u32)
    requires cursor < end <= |s|
    requires PlayersLoop(s, whole, done, ScanPlayers(s, cursor, end), cursor, end, write, verify, selector, bytes,
                         objectId)
    requires PassedEntry(bytes, cursor, end, write, verify, selector).None?
    ensures !ListPasses(s, whole, write, verify, selector)
  {
    EntryAgrees(s, bytes, cursor, end);
    var e := EntryAt(s, cursor, end);
    PlayersLoopRefuses(s, whole, done, ScanPlayers(s, cursor, end), cursor, end, write, verify, selector, bytes,
                       objectId, e,
                       if e.None? then None else ScanPlayers(s, e.value.next, end));
  }

  lemma BodyStep(s: Buffer, whole: Option<seq<nat>>, done: seq<nat>, cursor: nat, end: nat, write: bool, verify: bool,
                 selector: u32, bytes: Buffer, objectId: u32, e: Entry, after: Buffer, found: u32)
    requires cursor < end <= |s|
    requires PlayersLoop(s, whole, done, ScanPlayers(s, cursor, end), cursor, end, write, verify, selector, bytes,
                         objectId)
    requires PassedEntry(bytes, cursor, end, write, verify, selector) == Some(e)
    requires e.own != [] ==> found == LoadU32(bytes, e.own[0] + 8)
    requires after == if e.own != [] && write then Selected(bytes, e.own[0], selector) else bytes
    ensures PlayersLoop(s, whole, done + e.own, ScanPlayers(s, e.next, end), e.next, end, write, verify, selector,
                        after,
                        if e.own != [] then found else objectId)
  {
    EntryAgrees(s, bytes, cursor, end);
    PlayersLoopStep(s, whole, done, ScanPlayers(s, cursor, end), cursor, end, write, verify, selector, bytes, objectId,
                    e,
                    ScanPlayers(s, e.next, end), after, found);
  }

  lemma BodyEnds(s: Buffer, whole: Option<seq<nat>>, done: seq<nat>, cursor: nat, end: nat, write: bool, verify: bool,
                 selector: u32, bytes: Buffer, objectId: u32, entry: Option<Entry>, after: Buffer, found: u32)
    requires cursor < end <= |s|
    requires PlayersLoop(s, whole, done, ScanPlayers(s, cursor, end), cursor, end, write, verify, selector, bytes,
                         objectId)
    requires entry == PassedEntry(bytes, cursor, end, write, verify, selector)
    requires entry.Some? && entry.value.own != [] ==> found == LoadU32(bytes, entry.value.own[0] + 8)
    requires after == if entry.Some? && entry.value.own != []
             && write then Selected(bytes, entry.value.own[0], selector) else bytes
    ensures entry.None? ==> !ListPasses(s, whole, write, verify, selector)
    ensures entry.Some? ==> cursor + 8 <= entry.value.next <= end
    ensures entry.Some? ==> PlayersLoop(s, whole, done + entry.value.own, ScanPlayers(s, entry.value.next, end),
                                        entry.value.next, end,
                                        write, verify, selector, after, if entry.value.own != [] then found
                                          else objectId)
  {
    if entry.None? {
      BodyRefuses(s, whole, done, cursor, end, write, verify, selector, bytes, objectId);
    } else {
      BodyStep(s, whole, done, cursor, end, write, verify, selector, bytes, objectId, entry.value, after, found);
    }
  }

  /** The body of the loop. */
  method EditNextPlayer(bytes: array<byte>, cursor: nat, end: nat, write: bool, verify: bool, selector: u32,
                        objectId: u32, ghost s: Buffer, ghost whole: Option<seq<nat>>, ghost done: seq<nat>)
    returns (entry: Option<Entry>, objectId': u32)
    requires cursor < end <= bytes.Length == |s| && selector <= 0xFFFF
    requires PlayersLoop(s, whole, done, ScanPlayers(s, cursor, end), cursor, end, write, verify, selector, bytes[..],
                         objectId)
    modifies bytes
    ensures entry.None? ==> !ListPasses(s, whole, write, verify, selector)
    ensures entry.Some? ==> cursor + 8 <= entry.value.next <= end
    ensures entry.Some? ==> PlayersLoop(s, whole, done + entry.value.own, ScanPlayers(s, entry.value.next, end),
                                        entry.value.next, end,
                                        write, verify, selector, bytes[..], objectId')
  {
    ghost var before := bytes[..];
    var found;
    entry, found := EditEntry(bytes, cursor, end, write, verify, selector);
    objectId' := if entry.Some? && entry.value.own != [] then found else objectId;
    BodyEnds(s, whole, done, cursor, end, write, verify, selector, before, objectId, entry, bytes[..], found);
  }

  /** The entry of one player, or nothing if it is refused. */
  method EditEntry(bytes: array<byte>, cursor: nat, end: nat, write: bool, verify: bool, selector: u32)
    returns (entry: Option<Entry>, objectId: u32)
    requires cursor < end <= bytes.Length && selector <= 0xFFFF
    modifies bytes
    ensures entry == PassedEntry(old(bytes[..]), cursor, end, write, verify, selector)
    ensures entry.Some? && entry.value.own != [] ==> objectId == LoadU32(old(bytes[..]), entry.value.own[0] + 8)
    ensures bytes[..] == if entry.Some? && entry.value.own != []
            && write then Selected(old(bytes[..]), entry.value.own[0], selector)
                         else old(bytes[..])
  {
    var view := bytes[..];
    objectId := 0;
    var found := EntryAt(view, cursor, end);
    if found.None? || found.value.own == [] {
      return found, objectId;
    }
    var ok;
    ok, objectId := EditLocalPlayer(bytes, ChunkAt(view, cursor, end).value, write, verify, selector);
    entry := if ok then found else None;
  }

  function PassedEntry(s: Buffer, cursor: nat, end: nat, write: bool, verify: bool, selector: u32): (r: Option<Entry>)
    requires cursor < end <= |s|
    ensures r.Some? ==> r == EntryAt(s, cursor, end)
  {
    var e := EntryAt(s, cursor, end);
    if e.Some? && (e.value.own == [] || VehiclePasses(s, e.value.own[0], write, verify, selector)) then e else None
  }

  /** The whole editor on the bytes of the stream. When it refuses, the caller drops the bytes. */
  method EditNativeVehicle(bytes: array<byte>, write: bool, verify: bool, selector: u32)
    returns (ok: bool, objectId: u32)
    requires selector <= 0xFFFF
    modifies bytes
    ensures ok <==> 16 <= bytes.Length <= MAXIMUM_SIZE && Succeeds(old(bytes[..]), write, verify, selector)
    ensures ok ==> Answered(old(bytes[..]), write, selector, bytes[..], objectId)
  {
    objectId := 0;
    if bytes.Length < 16 || bytes.Length > MAXIMUM_SIZE {
      return false, objectId;
    }
    var found := FindContainers(bytes[..]);
    if found.None? {
      return false, objectId;
    }
    ok, objectId := EditContainers(bytes, found.value, write, verify, selector);
  }

  method EditContainers(bytes: array<byte>, c: Layout, write: bool, verify: bool, selector: u32)
    returns (ok: bool, objectId: u32)
    requires selector <= 0xFFFF && Containers(bytes[..]) == Some(c)
    modifies bytes
    ensures ok <==> Succeeds(old(bytes[..]), write, verify, selector)
    ensures ok ==> Answered(old(bytes[..]), write, selector, bytes[..], objectId)
  {
    objectId := 0;
    ghost var s := bytes[..];
    ok := EditCampaignResultLatch(bytes, c.globals, write, verify);
    if ok {
      ghost var latched := bytes[..];
      LatchLeavesPlayers(s, latched, c);
      ok, objectId := EditPlayers(bytes, c.players, write, verify, selector);
      ComposedAnswer(s, c, latched, write, verify, selector);
      if ok {
        var _ := ParsedPlaces(s);
        FinalAnswer(s, Parse(s).value, latched, write, selector, bytes[..], objectId);
      }
    }
  }

  ghost predicate Answered(s: Buffer, write: bool, selector: u32, bytes: Buffer, objectId: u32) {
    && Parse(s).Some? && objectId == LoadU32(s, Parse(s).value.vehicle + 8)
    && bytes == if write then Edited(s, Parse(s).value, selector) else s
  }

  lemma LatchLeavesPlayers(s: Buffer, r: Buffer, l: Layout)
    requires Containers(s) == Some(l) && ThresholdAt(s, l.globals).Some?
    requires r == s || r == Put(s, ThresholdAt(s, l.globals).value, PatternBytes(ACKNOWLEDGED_THRESHOLD))
    ensures ScanPlayers(r, l.players.begin, l.players.end) == ScanPlayers(s, l.players.begin, l.players.end)
    ensures Agree(s, r, l.players.begin, l.players.end)
  {
    ContainersDisjoint(s);
    PlayersFrame(s, r, l.players.begin, l.players.end);
  }

  /** The two edits pass together exactly when the stream parses; the first one leaves what the
      second one reads. */
  lemma ComposedAnswer(s: Buffer, c: Layout, r: Buffer, write: bool, verify: bool, selector: u32)
    requires Containers(s) == Some(c) && LatchPasses(s, c.globals, write, verify) && |r| == |s|
    requires Agree(s, r, c.players.begin, c.players.end)
    ensures Succeeds(s, write, verify, selector)
            <==> ListPasses(r, ScanPlayers(s, c.players.begin, c.players.end), write, verify, selector)
  {
    if ScanPlayers(s, c.players.begin, c.players.end).Some?
        && |ScanPlayers(s, c.players.begin, c.players.end).value| == 1 {
      var v := ScanPlayers(s, c.players.begin, c.players.end).value[0];
      VehiclesBounds(s, c.players.begin, c.players.end);
      assert v in ScanPlayers(s, c.players.begin, c.players.end).value;
      assert LoadU32(r, v) == LoadU32(s, v);
    }
  }

  lemma FinalAnswer(s: Buffer, l: Layout, r: Buffer, write: bool, selector: u32, bytes: Buffer, objectId: u32)
    requires l.threshold + 8 <= |s| == |r| && l.vehicle + VEHICLE_PAYLOAD <= |s|
             && Agree(s, r, l.vehicle, l.vehicle + 12)
    requires r == if write then Put(s, l.threshold, PatternBytes(ACKNOWLEDGED_THRESHOLD)) else s
    requires ListAnswer(r, Some([l.vehicle]), write, selector, bytes, objectId)
    requires Parse(s) == Some(l)
    ensures Answered(s, write, selector, bytes, objectId)
  {
    assert LoadU32(r, l.vehicle + 8) == LoadU32(s, l.vehicle + 8);
  }
}
